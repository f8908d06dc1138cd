/** Value trees: how the writer's calls spell them, and a reader that follows
    sections 2 to 7 of RFC 8259, restricted to integers among the numbers. */
module JsonReader {
  import opened CStrings
  import opened Decimals
  import opened Json
  import opened Options
  import opened Seqs

  datatype Value =
    | JNull
    | JBool(value: bool)
    | JNumber(number: Long)
    | JString(text: string)
    | JArray(items: seq<Value>)
    | JObject(members: seq<Member>)

  datatype Member = Member(key: string, value: Value)

  // ----- The text of a value ------------------------------------------------------------

  function Print(v: Value): string
    decreases v, 0
  {
    match v
    case JNull => "null"
    case JBool(b) => if b then "true" else "false"
    case JNumber(n) => Integer(n)
    case JString(s) => Quoted(s)
    case JArray(items) => ['['] + PrintItems(items, true)
    case JObject(members) => ['{'] + PrintMembers(members, true)
  }

  /** What follows the opening bracket; `first` says that no item precedes. */
  function PrintItems(items: seq<Value>, first: bool): string
    decreases items, 1
  {
    if items == [] then "]"
    else Comma(!first) + Print(items[0]) + PrintItems(items[1..], false)
  }

  function PrintMember(m: Member): string
    decreases m, 0
  {
    Quoted(m.key) + ":" + Print(m.value)
  }

  function PrintMembers(members: seq<Member>, first: bool): string
    decreases members, 1
  {
    if members == [] then "}"
    else Comma(!first) + PrintMember(members[0]) + PrintMembers(members[1..], false)
  }

  /** Strings are C strings. */
  predicate NulFree(v: Value) {
    match v
    case JString(s) => '\0' !in s
    case JArray(items) => forall k :: 0 <= k < |items| ==> NulFree(items[k])
    case JObject(members) => forall k :: 0 <= k < |members| ==> '\0' !in members[k].key && NulFree(members[k].value)
    case _ => true
  }

  // ----- The calls that walk a tree -------------------------------------------------------

  /** Begin and end around the parts, a key before each value: whatever the comma
      flag says at the start, the text is the value after the comma that is due. */
  method WriteValue(w: Writer, v: Value)
    requires w.Valid() && NulFree(v)
    modifies w
    ensures w.Wrote(Comma(old(w.needComma)) + Print(v)) && w.needComma
    decreases v, 0
  {
    match v {
      case JNull => w.Null();
      case JBool(b) => w.Bool(b);
      case JNumber(n) => w.Number(n);
      case JString(s) =>
        CStringExact(s);
        w.String(Some(s));
      case JArray(items) =>
        ghost var before, comma := w.data, Comma(w.needComma);
        w.ArrayBegin();
        WriteItems(w, items);
        Associate(before, comma + "[", PrintItems(items, true));
        Associate(comma, "[", PrintItems(items, true));
      case JObject(members) =>
        ghost var before, comma := w.data, Comma(w.needComma);
        w.ObjectBegin();
        WriteMembers(w, members);
        Associate(before, comma + "{", PrintMembers(members, true));
        Associate(comma, "{", PrintMembers(members, true));
    }
  }

  method WriteItems(w: Writer, items: seq<Value>)
    requires w.Valid() && !w.needComma && forall k :: 0 <= k < |items| ==> NulFree(items[k])
    modifies w
    ensures w.Wrote(PrintItems(items, true)) && w.needComma
    decreases items, 1
  {
    ghost var before, done, whole := w.data, "", PrintItems(items, true);
    var i := 0;
    assert items[0..] == items && w.data + "" == w.data;
    while i < |items|
      invariant i <= |items| && w.Valid() && (old(w.failed) ==> w.failed)
      invariant w.needComma == (i > 0)
      invariant !w.failed ==> w.data == before + done
      invariant done + PrintItems(items[i..], i == 0) == whole
      invariant w.failed ==> old(w.failed) || TooLong(|before| + |whole|)
    {
      ghost var text := Comma(i > 0) + Print(items[i]);
      assert items[i..][0] == items[i] && items[i..][1..] == items[i + 1..];
      Associate(done, text, PrintItems(items[i + 1..], false));
      Associate(before, done, text);
      WriteValue(w, items[i]);
      done := done + text;
      i := i + 1;
    }
    assert items[i..] == [];
    Associate(before, done, "]");
    w.ArrayEnd();
  }

  method WriteMember(w: Writer, m: Member)
    requires w.Valid() && '\0' !in m.key && NulFree(m.value)
    modifies w
    ensures w.Wrote(Comma(old(w.needComma)) + PrintMember(m)) && w.needComma
    decreases m, 1
  {
    ghost var before, comma := w.data, Comma(w.needComma);
    CStringExact(m.key);
    w.Key(m.key);
    ghost var named := w.data;
    WriteValue(w, m.value);
    assert Comma(false) + Print(m.value) == Print(m.value);
    MemberText(before, comma, m);
    assert !w.failed ==> named == before + (comma + Quoted(m.key) + ":") && w.data == named + Print(m.value);
  }

  method WriteMembers(w: Writer, members: seq<Member>)
    requires w.Valid() && !w.needComma
    requires forall k :: 0 <= k < |members| ==> '\0' !in members[k].key && NulFree(members[k].value)
    modifies w
    ensures w.Wrote(PrintMembers(members, true)) && w.needComma
    decreases members, 1
  {
    ghost var before, done, whole := w.data, "", PrintMembers(members, true);
    var i := 0;
    assert members[0..] == members && w.data + "" == w.data;
    while i < |members|
      invariant i <= |members| && w.Valid() && (old(w.failed) ==> w.failed)
      invariant w.needComma == (i > 0)
      invariant !w.failed ==> w.data == before + done
      invariant done + PrintMembers(members[i..], i == 0) == whole
      invariant w.failed ==> old(w.failed) || TooLong(|before| + |whole|)
    {
      ghost var text := Comma(i > 0) + PrintMember(members[i]);
      assert members[i..][0] == members[i] && members[i..][1..] == members[i + 1..];
      Associate(done, text, PrintMembers(members[i + 1..], false));
      Associate(before, done, text);
      WriteMember(w, members[i]);
      done := done + text;
      i := i + 1;
    }
    assert members[i..] == [];
    Associate(before, done, "}");
    w.ObjectEnd();
  }

  lemma MemberText(before: string, comma: string, m: Member)
    ensures before + (comma + Quoted(m.key) + ":") + Print(m.value) == before + (comma + PrintMember(m))
  {
    var key, value := Quoted(m.key), Print(m.value);
    Associate(before, comma + key + ":", value);
    Associate(comma, key + ":", value);
    Associate(comma, key, ":");
  }

  // ----- The reader ---------------------------------------------------------------------------

  /** What was read, and what is left. */
  datatype Read<T> = Read(value: T, rest: string)

  /** Section 2: space, tab, line feed and carriage return. */
  function SkipSpace(s: string): (r: string)
    ensures |r| <= |s|
  {
    if s != "" && (s[0] == ' ' || s[0] == '\t' || s[0] == '\n' || s[0] == '\r') then SkipSpace(s[1..]) else s
  }

  function HexValue(c: char): Option<nat> {
    if '0' <= c <= '9' then Some(c as int - '0' as int)
    else if 'a' <= c <= 'f' then Some(c as int - 'a' as int + 10)
    else if 'A' <= c <= 'F' then Some(c as int - 'A' as int + 10)
    else None
  }

  /** Four hexadecimal digits as a UTF-16 code unit. */
  function ReadHex(s: string): (r: Option<nat>)
    ensures r.Some? ==> |s| >= 4 && r.value < 0x10000
  {
    if |s| < 4 then None
    else
      var a, b, c, d := HexValue(s[0]), HexValue(s[1]), HexValue(s[2]), HexValue(s[3]);
      if a.None? || b.None? || c.None? || d.None? then None
      else Some(a.value * 0x1000 + b.value * 0x100 + c.value * 0x10 + d.value)
  }

  /** The escape after a backslash (section 7), surrogate pairs included. */
  function ReadEscape(s: string): (r: Option<Read<char>>)
    ensures r.Some? ==> |r.value.rest| < |s|
  {
    if s == "" then None
    else
      match s[0]
      case '"' => Some(Read('"', s[1..]))
      case '\\' => Some(Read('\\', s[1..]))
      case '/' => Some(Read('/', s[1..]))
      case 'b' => Some(Read('\U{08}', s[1..]))
      case 'f' => Some(Read('\U{0C}', s[1..]))
      case 'n' => Some(Read('\n', s[1..]))
      case 'r' => Some(Read('\r', s[1..]))
      case 't' => Some(Read('\t', s[1..]))
      case 'u' =>
        var unit := ReadHex(s[1..]);
        if unit.None? then None
        else if unit.value < 0xD800 || 0xE000 <= unit.value then Some(Read(unit.value as char, s[5..]))
        else if unit.value >= 0xDC00 || |s| < 7 || s[5] != '\\' || s[6] != 'u' then None
        else
          var low := ReadHex(s[7..]);
          if low.None? || low.value < 0xDC00 || low.value >= 0xE000 then None
          else Some(Read((0x10000 + (unit.value - 0xD800) * 0x400 + (low.value - 0xDC00)) as char, s[11..]))
      case _ => None
  }

  /** A string after its opening quote (section 7). */
  function ReadString(s: string): (r: Option<Read<string>>)
    ensures r.Some? ==> |r.value.rest| < |s|
    decreases |s|
  {
    if s == "" || s[0] < ' ' then None
    else if s[0] == '"' then Some(Read("", s[1..]))
    else if s[0] == '\\' then
      var c := ReadEscape(s[1..]);
      if c.None? then None
      else
        var more := ReadString(c.value.rest);
        if more.None? then None else Some(Read([c.value.value] + more.value.value, more.value.rest))
    else
      var more := ReadString(s[1..]);
      if more.None? then None else Some(Read([s[0]] + more.value.value, more.value.rest))
  }

  function DigitsEnd(s: string, i: nat): (r: nat)
    requires i <= |s|
    ensures i <= r <= |s|
    ensures forall k :: i <= k < r ==> '0' <= s[k] <= '9'
    decreases |s| - i
  {
    if i < |s| && '0' <= s[i] <= '9' then DigitsEnd(s, i + 1) else i
  }

  /** An unsigned integer (section 6): no leading zero, no fraction, no exponent. */
  function ReadDigits(s: string): (r: Option<Read<nat>>)
    ensures r.Some? ==> |r.value.rest| < |s|
  {
    var end := DigitsEnd(s, 0);
    if end == 0 || (s[0] == '0' && end > 1) then None
    else if end < |s| && (s[end] == '.' || s[end] == 'e' || s[end] == 'E') then None
    else Some(Read(DecimalValue(s[..end]), s[end..]))
  }

  function ReadInteger(s: string): (r: Option<Read<Value>>)
    ensures r.Some? ==> |r.value.rest| < |s|
  {
    var negative := s != "" && s[0] == '-';
    var digits := ReadDigits(if negative then s[1..] else s);
    if digits.None? then None
    else
      var size: int := digits.value.value;
      var n := if negative then -size else size;
      if LONG_MIN <= n <= LONG_MAX then Some(Read(JNumber(n), digits.value.rest)) else None
  }

  function ReadWord(s: string, word: string, v: Value): (r: Option<Read<Value>>)
    requires word != ""
    ensures r.Some? ==> |r.value.rest| < |s|
  {
    if word <= s then Some(Read(v, s[|word|..])) else None
  }

  /** A value (section 3), after the space before it. */
  function ReadValue(s: string): (r: Option<Read<Value>>)
    ensures r.Some? ==> |r.value.rest| < |s|
    decreases |s|, 0
  {
    if s == "" then None
    else if s[0] == 'n' then ReadWord(s, "null", JNull)
    else if s[0] == 't' then ReadWord(s, "true", JBool(true))
    else if s[0] == 'f' then ReadWord(s, "false", JBool(false))
    else if s[0] == '"' then
      var text := ReadString(s[1..]);
      if text.None? then None else Some(Read(JString(text.value.value), text.value.rest))
    else if s[0] == '[' then
      var items := ReadItems(SkipSpace(s[1..]), true);
      if items.None? then None else Some(Read(JArray(items.value.value), items.value.rest))
    else if s[0] == '{' then
      var members := ReadMembers(SkipSpace(s[1..]), true);
      if members.None? then None else Some(Read(JObject(members.value.value), members.value.rest))
    else ReadInteger(s)
  }

  /** The rest of an array (section 5): a bracket, or a comma if some item precedes,
      and an item. */
  function ReadItems(s: string, first: bool): (r: Option<Read<seq<Value>>>)
    ensures r.Some? ==> |r.value.rest| < |s|
    decreases |s|, 1
  {
    if s == "" then None
    else if s[0] == ']' then Some(Read([], s[1..]))
    else if !first && s[0] != ',' then None
    else
      var item := ReadValue(if first then s else SkipSpace(s[1..]));
      if item.None? then None
      else
        var more := ReadItems(SkipSpace(item.value.rest), false);
        if more.None? then None else Some(Read([item.value.value] + more.value.value, more.value.rest))
  }

  function ReadMember(s: string): (r: Option<Read<Member>>)
    ensures r.Some? ==> |r.value.rest| < |s|
    decreases |s|, 1
  {
    if s == "" || s[0] != '"' then None
    else
      var key := ReadString(s[1..]);
      if key.None? then None
      else
        var colon := SkipSpace(key.value.rest);
        if colon == "" || colon[0] != ':' then None
        else
          var value := ReadValue(SkipSpace(colon[1..]));
          if value.None? then None else Some(Read(Member(key.value.value, value.value.value), value.value.rest))
  }

  /** The rest of an object (section 4). */
  function ReadMembers(s: string, first: bool): (r: Option<Read<seq<Member>>>)
    ensures r.Some? ==> |r.value.rest| < |s|
    decreases |s|, 2
  {
    if s == "" then None
    else if s[0] == '}' then Some(Read([], s[1..]))
    else if !first && s[0] != ',' then None
    else
      var member := ReadMember(if first then s else SkipSpace(s[1..]));
      if member.None? then None
      else
        var more := ReadMembers(SkipSpace(member.value.rest), false);
        if more.None? then None else Some(Read([member.value.value] + more.value.value, more.value.rest))
  }

  /** A whole text. */
  function ReadText(s: string): Option<Value> {
    var v := ReadValue(SkipSpace(s));
    if v.None? || SkipSpace(v.value.rest) != "" then None else Some(v.value.value)
  }

  // ----- The reader takes back what the writer wrote ---------------------------------------------

  /** What may follow a value: nothing, a comma or a closing bracket. */
  predicate Follows(rest: string) {
    rest == "" || rest[0] == ',' || rest[0] == ']' || rest[0] == '}'
  }

  /** Written text has no space to skip. */
  lemma NoSpace(s: string)
    requires s == "" || s[0] > ' '
    ensures SkipSpace(s) == s
  {
  }

  lemma HexDigit(n: nat)
    requires n < 16
    ensures HexValue(HEX[n]) == Some(n)
  {
    if n < 10 {
      assert HEX[..10] == "0123456789";
    }
  }

  lemma ReadControl(c: char, s: string)
    requires c < ' ' && |s| >= 5 && s[..5] == ['u', '0', '0', HEX[c as int / 16], HEX[c as int % 16]]
    ensures ReadEscape(s) == Some(Read(c, s[5..]))
  {
    HexDigit(0);
    HexDigit(c as int / 16);
    HexDigit(c as int % 16);
    assert s[0] == s[..5][0] && s[1..][0] == s[..5][1] && s[1..][1] == s[..5][2];
    assert s[1..][2] == s[..5][3] && s[1..][3] == s[..5][4];
    assert ReadHex(s[1..]) == Some(c as int);
  }

  lemma ReadUnit(c: char, rest: string)
    ensures var u := Unit(c);
      if u[0] == '\\' then ReadEscape((u + rest)[1..]) == Some(Read(c, rest))
      else u == [c] && c != '"' && c >= ' '
  {
    var u := Unit(c);
    if u[0] == '\\' {
      assert (u + rest)[1..] == u[1..] + rest;
      if |u| == 2 {
        assert (u[1..] + rest)[1..] == rest;
      } else {
        ReadControl(c, u[1..] + rest);
        assert (u[1..] + rest)[5..] == rest;
      }
    }
  }

  lemma PrependUnit(c: char, tail: string, x: string, rest: string)
    requires ReadString(tail) == Some(Read(x, rest))
    ensures ReadString(Unit(c) + tail) == Some(Read([c] + x, rest))
  {
    var u := Unit(c);
    var s := u + tail;
    ReadUnit(c, tail);
    assert s[0] == u[0];
    if u[0] != '\\' {
      assert s[1..] == tail;
    }
  }

  lemma {:induction false} ReadEscaped(x: string, rest: string)
    ensures ReadString(Escape(x) + ['"'] + rest) == Some(Read(x, rest))
    decreases |x|
  {
    var s := Escape(x) + ['"'] + rest;
    if x == "" {
      assert s[1..] == rest;
    } else {
      var tail := Escape(x[1..]) + ['"'] + rest;
      ReadEscaped(x[1..], rest);
      PrependUnit(x[0], tail, x[1..], rest);
      assert s == Unit(x[0]) + tail && [x[0]] + x[1..] == x;
    }
  }

  lemma {:induction false} DigitsEndIs(s: string, i: nat, n: nat)
    requires i <= n <= |s| && (forall k :: i <= k < n ==> '0' <= s[k] <= '9')
    requires n == |s| || !('0' <= s[n] <= '9')
    ensures DigitsEnd(s, i) == n
    decreases n - i
  {
    if i < n {
      DigitsEndIs(s, i + 1, n);
    }
  }

  lemma ReadDecimal(n: nat, rest: string)
    requires Follows(rest)
    ensures ReadDigits(Decimal(n) + rest) == Some(Read(n, rest))
  {
    var digits := Decimal(n);
    var s := digits + rest;
    forall k | 0 <= k < |digits| ensures '0' <= s[k] <= '9' {
      assert s[k] == digits[k];
    }
    DigitsEndIs(s, 0, |digits|);
    assert s[..|digits|] == digits && s[|digits|..] == rest;
    NoLeadingZero(n);
    DecimalRoundTrip(n);
  }

  /** Reading goes by the first character. */
  lemma NumberText(s: string, n: nat, rest: string)
    requires ReadDigits(s) == Some(Read(n, rest)) && s != "" && '0' <= s[0] <= '9' && n <= LONG_MAX
    ensures ReadValue(s) == Some(Read(JNumber(n), rest))
  {
  }

  lemma NegativeText(s: string, n: nat, rest: string)
    requires ReadDigits(s) == Some(Read(n, rest)) && n <= -LONG_MIN
    ensures var m: int := n; ReadValue(['-'] + s) == Some(Read(JNumber(-m), rest))
  {
    assert (['-'] + s)[1..] == s;
  }

  lemma StringText(s: string, x: string, rest: string)
    requires ReadString(s) == Some(Read(x, rest))
    ensures ReadValue(['"'] + s) == Some(Read(JString(x), rest))
  {
    assert (['"'] + s)[1..] == s;
  }

  lemma ArrayText(s: string, items: seq<Value>, rest: string)
    requires ReadItems(s, true) == Some(Read(items, rest)) && s != "" && s[0] > ' '
    ensures ReadValue(['['] + s) == Some(Read(JArray(items), rest))
  {
    var t := ['['] + s;
    assert t[0] == '[' && t[1..] == s;
    NoSpace(s);
  }

  lemma ObjectText(s: string, members: seq<Member>, rest: string)
    requires ReadMembers(s, true) == Some(Read(members, rest)) && s != "" && s[0] > ' '
    ensures ReadValue(['{'] + s) == Some(Read(JObject(members), rest))
  {
    var t := ['{'] + s;
    assert t[0] == '{' && t[1..] == s;
    NoSpace(s);
  }

  lemma WordText(v: Value, rest: string)
    requires v == JNull || v.JBool?
    ensures ReadValue(Print(v) + rest) == Some(Read(v, rest))
  {
    var word := Print(v);
    assert (word + rest)[|word|..] == rest;
    assert (word + rest)[0] == word[0];
  }

  lemma ReadPrintedNatural(n: nat, rest: string)
    requires Follows(rest) && n <= LONG_MAX
    ensures ReadValue(Decimal(n) + rest) == Some(Read(JNumber(n), rest))
  {
    var text := Decimal(n) + rest;
    ReadDecimal(n, rest);
    assert text[0] == Decimal(n)[0];
    NumberText(text, n, rest);
  }

  lemma ReadPrintedNegative(n: nat, rest: string)
    requires Follows(rest) && n <= -LONG_MIN
    ensures var m: int := n; ReadValue(['-'] + Decimal(n) + rest) == Some(Read(JNumber(-m), rest))
  {
    var text := Decimal(n) + rest;
    ReadDecimal(n, rest);
    NegativeText(text, n, rest);
    Associate(['-'], Decimal(n), rest);
  }

  lemma ReadPrintedInteger(n: Long, rest: string)
    requires Follows(rest)
    ensures ReadValue(Integer(n) + rest) == Some(Read(JNumber(n), rest))
  {
    var m: int := n;
    if m < 0 {
      ReadPrintedNegative(-m, rest);
    } else {
      ReadPrintedNatural(m, rest);
    }
  }

  /** How a value's text begins: never with a space, nor with what ends or
      separates values. */
  lemma PrintStart(v: Value)
    ensures Print(v) != "" && Print(v)[0] > ' '
    ensures Print(v)[0] != ']' && Print(v)[0] != '}' && Print(v)[0] != ','
  {
  }

  lemma {:induction false} ReadPrinted(v: Value, rest: string)
    requires Follows(rest)
    ensures ReadValue(Print(v) + rest) == Some(Read(v, rest))
    decreases v, 0
  {
    match v {
      case JNull => WordText(v, rest);
      case JBool(b) => WordText(v, rest);
      case JNumber(n) => ReadPrintedInteger(n, rest);
      case JString(x) => ReadPrintedString(x, rest);
      case JArray(items) => ReadPrintedArray(items, rest);
      case JObject(members) => ReadPrintedObject(members, rest);
    }
  }

  lemma ReadPrintedString(x: string, rest: string)
    ensures ReadValue(Quoted(x) + rest) == Some(Read(JString(x), rest))
  {
    var text := Escape(x) + ['"'] + rest;
    ReadEscaped(x, rest);
    StringText(text, x, rest);
    assert Quoted(x) + rest == ['"'] + text;
  }

  lemma {:induction false} ReadPrintedArray(items: seq<Value>, rest: string)
    requires Follows(rest)
    ensures ReadValue(['['] + PrintItems(items, true) + rest) == Some(Read(JArray(items), rest))
    decreases items, 2
  {
    var text := PrintItems(items, true) + rest;
    ReadPrintedItems(items, true, rest);
    ArrayText(text, items, rest);
    Associate("[", PrintItems(items, true), rest);
  }

  lemma {:induction false} ReadPrintedObject(members: seq<Member>, rest: string)
    requires Follows(rest)
    ensures ReadValue(['{'] + PrintMembers(members, true) + rest) == Some(Read(JObject(members), rest))
    decreases members, 3
  {
    var text := PrintMembers(members, true) + rest;
    ReadPrintedMembers(members, true, rest);
    ObjectText(text, members, rest);
    Associate("{", PrintMembers(members, true), rest);
  }

  /** Past the comma, if there is one, the text of a part begins. */
  lemma PastComma(first: bool, text: string, tail: string)
    requires text != "" && text[0] > ' ' && text[0] != ','
    ensures var s := Comma(!first) + text + tail;
      && s != "" && s[0] > ' ' && s[0] == (if first then text[0] else ',')
      && (if first then s else SkipSpace(s[1..])) == text + tail
  {
    var s := Comma(!first) + text + tail;
    if !first {
      assert s[1..] == text + tail;
    } else {
      assert s == text + tail;
    }
  }

  lemma ItemsStep(v: Value, text: string, items: seq<Value>, tail: string, first: bool, rest: string)
    requires text != "" && text[0] > ' ' && text[0] != ',' && text[0] != ']'
    requires tail == "" || tail[0] > ' '
    requires ReadValue(text + tail) == Some(Read(v, tail)) && ReadItems(tail, false) == Some(Read(items, rest))
    ensures ReadItems(Comma(!first) + text + tail, first) == Some(Read([v] + items, rest))
  {
    PastComma(first, text, tail);
    NoSpace(tail);
  }

  lemma {:induction false} ReadPrintedItems(items: seq<Value>, first: bool, rest: string)
    requires Follows(rest)
    ensures var s := PrintItems(items, first) + rest;
      ReadItems(s, first) == Some(Read(items, rest)) && s != "" && s[0] > ' ' && (!first ==> Follows(s))
    decreases items, 1
  {
    if items == [] {
      assert (PrintItems(items, first) + rest)[1..] == rest;
    } else {
      var v, tail := items[0], PrintItems(items[1..], false) + rest;
      PrintStart(v);
      ReadPrintedItems(items[1..], false, rest);
      ReadPrinted(v, tail);
      ItemsStep(v, Print(v), items[1..], tail, first, rest);
      PastComma(first, Print(v), tail);
      Associate(Comma(!first) + Print(v), PrintItems(items[1..], false), rest);
      assert [v] + items[1..] == items;
    }
  }

  lemma MemberSplit(key: string, value: string, rest: string)
    ensures var s := ['"'] + key + ['"'] + ":" + value + rest;
      s[0] == '"' && s[1..] == key + ['"'] + (":" + (value + rest))
    ensures (['"'] + key + ['"'] + ":" + value)[0] == '"'
  {
  }

  lemma {:induction false} ReadPrintedMember(m: Member, rest: string)
    requires Follows(rest)
    ensures ReadMember(PrintMember(m) + rest) == Some(Read(m, rest))
    ensures PrintMember(m) != "" && PrintMember(m)[0] == '"'
    decreases m, 1
  {
    var value := Print(m.value) + rest;
    MemberSplit(Escape(m.key), Print(m.value), rest);
    ReadEscaped(m.key, ":" + value);
    NoSpace(":" + value);
    assert (":" + value)[1..] == value;
    PrintStart(m.value);
    NoSpace(value);
    ReadPrinted(m.value, rest);
  }

  lemma MembersStep(m: Member, text: string, members: seq<Member>, tail: string, first: bool, rest: string)
    requires text != "" && text[0] == '"' && (tail == "" || tail[0] > ' ')
    requires ReadMember(text + tail) == Some(Read(m, tail)) && ReadMembers(tail, false) == Some(Read(members, rest))
    ensures ReadMembers(Comma(!first) + text + tail, first) == Some(Read([m] + members, rest))
  {
    PastComma(first, text, tail);
    NoSpace(tail);
  }

  lemma {:induction false} ReadPrintedMembers(members: seq<Member>, first: bool, rest: string)
    requires Follows(rest)
    ensures var s := PrintMembers(members, first) + rest;
      ReadMembers(s, first) == Some(Read(members, rest)) && s != "" && s[0] > ' ' && (!first ==> Follows(s))
    decreases members, 2
  {
    if members == [] {
      assert (PrintMembers(members, first) + rest)[1..] == rest;
    } else {
      var m, tail := members[0], PrintMembers(members[1..], false) + rest;
      ReadPrintedMembers(members[1..], false, rest);
      ReadPrintedMember(m, tail);
      MembersStep(m, PrintMember(m), members[1..], tail, first, rest);
      PastComma(first, PrintMember(m), tail);
      Associate(Comma(!first) + PrintMember(m), PrintMembers(members[1..], false), rest);
      assert [m] + members[1..] == members;
    }
  }

  /** Whatever tree is written, the reader decodes to the same tree. */
  lemma WritingIsInvertible(v: Value)
    ensures ReadText(Print(v)) == Some(v)
  {
    PrintStart(v);
    NoSpace(Print(v));
    ReadPrinted(v, "");
    assert Print(v) + "" == Print(v);
  }

  // ----- One line per message ------------------------------------------------------------------------

  predicate NoControl(s: string) {
    forall k :: 0 <= k < |s| ==> s[k] >= ' '
  }

  lemma {:induction false} EscapeNoControl(x: string)
    ensures NoControl(Escape(x))
  {
    if x != "" {
      UnitNoControl(x[0]);
      EscapeNoControl(x[1..]);
    }
  }

  lemma UnitNoControl(c: char)
    ensures NoControl(Unit(c))
  {
  }

  /** The text has no control character, and so no newline. */
  lemma {:induction false} PrintNoControl(v: Value)
    ensures NoControl(Print(v))
    decreases v, 0
  {
    match v {
      case JString(x) => EscapeNoControl(x);
      case JArray(items) => ItemsNoControl(items, true);
      case JObject(members) => MembersNoControl(members, true);
      case _ =>
    }
  }

  lemma {:induction false} ItemsNoControl(items: seq<Value>, first: bool)
    ensures NoControl(PrintItems(items, first))
    decreases items, 1
  {
    if items != [] {
      PrintNoControl(items[0]);
      ItemsNoControl(items[1..], false);
    }
  }

  lemma {:induction false} MembersNoControl(members: seq<Member>, first: bool)
    ensures NoControl(PrintMembers(members, first))
    decreases members, 1
  {
    if members != [] {
      EscapeNoControl(members[0].key);
      PrintNoControl(members[0].value);
      MembersNoControl(members[1..], false);
    }
  }
}
