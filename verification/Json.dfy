/** The JSON writer of the control interface (json.c): a growing buffer, one comma
    flag, and strings escaped on the way; and a reader that takes it all back. */
module Json {
  import opened CStrings
  import opened Decimals
  import opened Options
  import opened Seqs

  const SIZE_MAX: nat := 0xFFFF_FFFF_FFFF_FFFF
  const LONG_MIN: int := -0x8000_0000_0000_0000
  const LONG_MAX: int := 0x7FFF_FFFF_FFFF_FFFF

  type Long = n: int | LONG_MIN <= n <= LONG_MAX

  // ----- What one call writes --------------------------------------------------------

  const HEX := "0123456789abcdef"

  /** How a character stands inside a string: short escapes, \u00XX for the other
      control characters, and itself. */
  function Unit(c: char): string {
    match c
    case '"' => "\\\""
    case '\\' => "\\\\"
    case '\n' => "\\n"
    case '\t' => "\\t"
    case '\r' => "\\r"
    case '\U{08}' => "\\b"
    case '\U{0C}' => "\\f"
    case _ => if c < ' ' then ['\\', 'u', '0', '0', HEX[c as int / 16], HEX[c as int % 16]] else [c]
  }

  function Escape(s: string): string {
    if s == [] then [] else Unit(s[0]) + Escape(s[1..])
  }

  function Quoted(s: string): string {
    ['"'] + Escape(s) + ['"']
  }

  function Integer(n: int): string {
    if n < 0 then ['-'] + Decimal(-n) else Decimal(n)
  }

  function Comma(need: bool): string {
    if need then "," else ""
  }

  /** What RawString has still to write from `i` on, before the closing quote. */
  function EscapeFrom(s: string, i: nat): string
    requires i <= |s|
    decreases |s| - i
  {
    if i == |s| || s[i] == '\0' then [] else Unit(s[i]) + EscapeFrom(s, i + 1)
  }

  lemma {:induction false} EscapeFromIs(s: string, i: nat)
    requires i <= |s|
    ensures EscapeFrom(s, i) == Escape(CString(s[i..]))
    decreases |s| - i
  {
    if i < |s| && s[i] != '\0' {
      EscapeFromIs(s, i + 1);
      assert s[i..][1..] == s[i + 1..];
      var rest := CString(s[i + 1..]);
      assert CString(s[i..]) == [s[i]] + rest && ([s[i]] + rest)[1..] == rest;
    }
  }

  lemma QuotedText(before: string, e: string)
    ensures before + "\"" + e + "\"" == before + (['"'] + e + ['"'])
  {
  }

  /** No doubling of the capacity has room for so many bytes. */
  predicate TooLong(length: nat) { length >= SIZE_MAX / 2 }

  // ----- The writer -------------------------------------------------------------------

  class Writer {
    var data: string
    var capacity: nat
    var failed: bool
    var needComma: bool

    /** The buffer has room for the text and its final NUL. */
    ghost predicate Valid()
      reads this
    {
      capacity <= SIZE_MAX && (data == [] || |data| + 1 <= capacity)
    }

    constructor ()
      ensures Valid() && data == [] && !failed && !needComma
    {
      data, capacity, failed, needComma := [], 0, false, false;
    }

    /** Grows the capacity by doubling until `extra` more characters fit. */
    method Reserve(extra: nat) returns (ok: bool)
      requires Valid()
      modifies this`capacity, this`failed
      ensures Valid() && ok == !failed && (old(failed) ==> failed)
      ensures ok ==> |data| + extra + 1 <= capacity
      ensures failed ==> old(failed) || TooLong(|data| + extra)
    {
      if failed {
        return false;
      }
      if extra > SIZE_MAX - 1 - |data| {
        failed := true;
        return false;
      }
      var needed := |data| + extra + 1;
      if needed <= capacity {
        return true;
      }
      var grown := if capacity == 0 then 128 else capacity;
      while grown < needed
        invariant 0 < grown <= SIZE_MAX
        invariant capacity <= grown
        decreases needed - grown
      {
        if grown > SIZE_MAX / 2 {
          failed := true;
          return false;
        }
        grown := grown * 2;
      }
      capacity := grown;
      ok := true;
    }

    /** What the text is after a call that writes `more`. A call fails only after a
        failure, or when the text gets too long. */
    twostate predicate Wrote(more: string)
      reads this
    {
      && Valid() && (old(failed) ==> failed) && (!failed ==> data == old(data) + more)
      && (failed ==> old(failed) || TooLong(|old(data)| + |more|))
    }

    method Append(text: string)
      requires Valid()
      modifies this`data, this`capacity, this`failed
      ensures Wrote(text)
    {
      var ok := Reserve(|text|);
      if ok {
        data := data + text;
      }
    }

    method Separate()
      requires Valid()
      modifies this`data, this`capacity, this`failed
      ensures Wrote(Comma(needComma))
    {
      if needComma {
        Append(",");
      }
    }

    method ObjectBegin()
      requires Valid()
      modifies this
      ensures Wrote(Comma(old(needComma)) + "{") && !needComma
    {
      Separate();
      Append("{");
      needComma := false;
    }

    method ObjectEnd()
      requires Valid()
      modifies this
      ensures Wrote("}") && needComma
    {
      Append("}");
      needComma := true;
    }

    method ArrayBegin()
      requires Valid()
      modifies this
      ensures Wrote(Comma(old(needComma)) + "[") && !needComma
    {
      Separate();
      Append("[");
      needComma := false;
    }

    method ArrayEnd()
      requires Valid()
      modifies this
      ensures Wrote("]") && needComma
    {
      Append("]");
      needComma := true;
    }

    /** Writes a string up to its first NUL, in quotes. */
    method RawString(value: string)
      requires Valid()
      modifies this`data, this`capacity, this`failed
      ensures Wrote(Quoted(CString(value)))
    {
      Append("\"");
      Escaped(value);
      Append("\"");
      QuotedText(old(data), Escape(CString(value)));
    }

    /** The loop over its bytes. */
    method Escaped(value: string)
      requires Valid()
      modifies this`data, this`capacity, this`failed
      ensures Wrote(Escape(CString(value)))
    {
      var cursor := 0;
      ghost var start, done, whole := data, "", Escape(CString(value));
      EscapeFromIs(value, 0);
      assert value[0..] == value && data + "" == data;
      while cursor < |value| && value[cursor] != '\0'
        invariant cursor <= |value| && Valid() && (old(failed) ==> failed)
        invariant !failed ==> data == start + done
        invariant done + EscapeFrom(value, cursor) == whole
        invariant failed ==> old(failed) || TooLong(|start| + |whole|)
      {
        Associate(done, Unit(value[cursor]), EscapeFrom(value, cursor + 1));
        Associate(start, done, Unit(value[cursor]));
        Append(Unit(value[cursor]));
        done := done + Unit(value[cursor]);
        cursor := cursor + 1;
      }
      assert done + "" == done;
    }

    method Key(key: string)
      requires Valid()
      modifies this
      ensures Wrote(Comma(old(needComma)) + Quoted(CString(key)) + ":") && !needComma
    {
      var comma := Comma(needComma);
      Separate();
      needComma := false;
      RawString(key);
      Append(":");
      Associate(old(data), comma, Quoted(CString(key)));
      Associate(old(data), comma + Quoted(CString(key)), ":");
    }

    method String(value: Option<string>)
      requires Valid()
      modifies this
      ensures Wrote(Comma(old(needComma)) + if value.Some? then Quoted(CString(value.value)) else "null") && needComma
    {
      if value.None? {
        Null();
        return;
      }
      Associate(data, Comma(needComma), Quoted(CString(value.value)));
      Separate();
      RawString(value.value);
      needComma := true;
    }

    method Bool(value: bool)
      requires Valid()
      modifies this
      ensures Wrote(Comma(old(needComma)) + if value then "true" else "false") && needComma
    {
      Separate();
      Append(if value then "true" else "false");
      needComma := true;
    }

    method Number(value: Long)
      requires Valid()
      modifies this
      ensures Wrote(Comma(old(needComma)) + Integer(value)) && needComma
    {
      Separate();
      Append(Integer(value));
      needComma := true;
    }

    method Null()
      requires Valid()
      modifies this
      ensures Wrote(Comma(old(needComma)) + "null") && needComma
    {
      Separate();
      Append("null");
      needComma := true;
    }

    method Result() returns (text: Option<string>)
      ensures text == if failed then None else Some(data)
    {
      return if failed then None else Some(data);
    }
  }
}
