/** Variables, environment references and ranges of the template language
    (expand.c), as meanings over an environment that is a plain map. */
module Fields {
  import opened Decimals
  import opened Options

  type Env = map<string, string>

  /** getenv and leme.env. */
  datatype Environ = Environ(process: map<string, string>, file: map<string, string>)

  datatype Binding = Binding(name: string, value: string)

  /** The environment that a binding stack stands for: later bindings shadow. */
  function EnvOf(bindings: seq<Binding>): Env {
    if bindings == [] then map[]
    else
      var last := bindings[|bindings| - 1];
      EnvOf(bindings[..|bindings| - 1])[last.name := last.value]
  }

  lemma EnvOfPush(bindings: seq<Binding>, b: Binding)
    ensures EnvOf(bindings + [b]) == EnvOf(bindings)[b.name := b.value]
  {
    assert (bindings + [b])[..|bindings|] == bindings;
  }

  /** Looking a name up from the top of the stack finds what the map holds. */
  method Lookup(bindings: seq<Binding>, name: string) returns (value: Option<string>)
    ensures value == if name in EnvOf(bindings) then Some(EnvOf(bindings)[name]) else None
  {
    var index := |bindings|;
    assert bindings[..index] == bindings;
    while index > 0
      invariant index <= |bindings|
      invariant name in EnvOf(bindings[..index]) <==> name in EnvOf(bindings)
      invariant name in EnvOf(bindings) ==> EnvOf(bindings[..index])[name] == EnvOf(bindings)[name]
    {
      index := index - 1;
      assert bindings[..index + 1] == bindings[..index] + [bindings[index]];
      EnvOfPush(bindings[..index], bindings[index]);
      if bindings[index].name == name {
        return Some(bindings[index].value);
      }
    }
    return None;
  }

  // ----- Identifiers -----------------------------------------------------------

  predicate IdentifierChar(c: char, first: bool) {
    c == '_' || 'A' <= c <= 'Z' || 'a' <= c <= 'z' || (!first && '0' <= c <= '9')
  }

  predicate Identifier(name: string) {
    && name != []
    && IdentifierChar(name[0], true)
    && forall k :: 1 <= k < |name| ==> IdentifierChar(name[k], false)
  }

  method IsValidIdentifier(name: string) returns (valid: bool)
    ensures valid == Identifier(name)
  {
    if |name| == 0 || !IdentifierChar(name[0], true) {
      return false;
    }
    var index := 1;
    while index < |name|
      invariant 1 <= index <= |name|
      invariant forall k :: 1 <= k < index ==> IdentifierChar(name[k], false)
    {
      if !IdentifierChar(name[index], false) {
        return false;
      }
      index := index + 1;
    }
    return true;
  }

  // ----- Fields ------------------------------------------------------------------

  predicate StartsAt(input: string, i: nat, prefix: string) {
    i + |prefix| <= |input| && input[i..i + |prefix|] == prefix
  }

  /** Where the identifier that starts at `start` ends; `i` is how far it is read. */
  function NameEnd(input: string, start: nat, i: nat): (r: nat)
    requires start <= i <= |input|
    ensures i <= r <= |input|
    decreases |input| - i
  {
    if i < |input| && IdentifierChar(input[i], i == start) then NameEnd(input, start, i + 1) else i
  }

  /** The process environment first, then the file; an empty value counts as unset. */
  function EnvValue(environ: Environ, name: string): string {
    if name in environ.process && environ.process[name] != "" then environ.process[name]
    else if name in environ.file && environ.file[name] != "" then environ.file[name]
    else "none"
  }

  datatype Reference = Reference(value: string, next: nat)

  /** What the '$' at `i` refers to, and where the text after the reference starts. */
  function ReferenceAt(input: string, i: nat, env: Env, environ: Environ): (r: Option<Reference>)
    requires i < |input| && input[i] == '$'
    ensures r.Some? ==> i < r.value.next <= |input|
  {
    if StartsAt(input, i + 1, "$") then Some(Reference("$", i + 2))
    else if StartsAt(input, i + 1, "(env.") then
      var end := NameEnd(input, i + 6, i + 6);
      if end == i + 6 || !StartsAt(input, end, ")") then None
      else Some(Reference(EnvValue(environ, input[i + 6..end]), end + 1))
    else
      var explicit := StartsAt(input, i + 1, "(");
      var start := if explicit then i + 2 else i + 1;
      var end := NameEnd(input, start, start);
      if end == start || (explicit && !StartsAt(input, end, ")")) || input[start..end] !in env then None
      else Some(Reference(env[input[start..end]], if explicit then end + 1 else end))
  }

  function Prepend(text: string, rest: Option<string>): Option<string> {
    if rest.Some? then Some(text + rest.value) else None
  }

  /** The text from `i` on with its references replaced; `None` when one is
      malformed or names no variable. */
  function FieldFrom(input: string, i: nat, env: Env, environ: Environ): Option<string>
    requires i <= |input|
    decreases |input| - i
  {
    if i == |input| then Some("")
    else if input[i] != '$' then Prepend([input[i]], FieldFrom(input, i + 1, env, environ))
    else
      var r := ReferenceAt(input, i, env, environ);
      if r.None? then None
      else Prepend(r.value.value, FieldFrom(input, r.value.next, env, environ))
  }

  function Field(input: string, env: Env, environ: Environ): Option<string> {
    FieldFrom(input, 0, env, environ)
  }

  function AllFields(inputs: seq<string>, env: Env, environ: Environ): (r: Option<seq<string>>)
    ensures r.Some? ==> |r.value| == |inputs|
  {
    if inputs == [] then Some([])
    else
      var first, rest := Field(inputs[0], env, environ), AllFields(inputs[1..], env, environ);
      if first.Some? && rest.Some? then Some([first.value] + rest.value) else None
  }

  lemma PrependTwice(a: string, b: string, rest: Option<string>)
    ensures Prepend(a, Prepend(b, rest)) == Prepend(a + b, rest)
  {
    if rest.Some? {
      assert a + (b + rest.value) == a + b + rest.value;
    }
  }

  /** A text without '$' stands for itself. */
  lemma {:induction false} PlainField(input: string, i: nat, env: Env, environ: Environ)
    requires i <= |input| && '$' !in input[i..]
    ensures FieldFrom(input, i, env, environ) == Some(input[i..])
    decreases |input| - i
  {
    if i < |input| {
      assert input[i] == input[i..][0] && input[i..][1..] == input[i + 1..];
      PlainField(input, i + 1, env, environ);
      assert [input[i]] + input[i + 1..] == input[i..];
    } else {
      assert input[i..] == "";
    }
  }

  lemma {:induction false} PlainFields(inputs: seq<string>, env: Env, environ: Environ)
    requires forall k :: 0 <= k < |inputs| ==> '$' !in inputs[k]
    ensures AllFields(inputs, env, environ) == Some(inputs)
  {
    if inputs != [] {
      assert inputs[0][0..] == inputs[0];
      PlainField(inputs[0], 0, env, environ);
      PlainFields(inputs[1..], env, environ);
      assert [inputs[0]] + inputs[1..] == inputs;
    }
  }

  /** Doubling every '$' of a text protects it: it expands back to the text. */
  function EscapeDollars(text: string): string {
    if text == [] then [] else (if text[0] == '$' then "$$" else [text[0]]) + EscapeDollars(text[1..])
  }

  lemma {:induction false} EscapedField(text: string, input: string, i: nat, env: Env, environ: Environ)
    requires i <= |input| && input[i..] == EscapeDollars(text)
    ensures FieldFrom(input, i, env, environ) == Some(text)
    decreases |text|
  {
    if text != [] {
      var unit := if text[0] == '$' then "$$" else [text[0]];
      assert input[i..][..|unit|] == unit && input[i..][|unit|..] == EscapeDollars(text[1..]);
      assert input[i] == unit[0] && input[i + |unit|..] == EscapeDollars(text[1..]);
      if text[0] == '$' {
        assert input[i + 1] == unit[1] && input[i + 1..i + 2] == "$";
      }
      EscapedField(text[1..], input, i + |unit|, env, environ);
      assert [text[0]] + text[1..] == text;
    }
  }

  lemma {:induction false} NameEndOf(input: string, start: nat, i: nat, end: nat)
    requires start <= i <= end <= |input|
    requires forall k :: i <= k < end ==> IdentifierChar(input[k], k == start)
    requires end < |input| ==> !IdentifierChar(input[end], end == start)
    ensures NameEnd(input, start, i) == end
    decreases end - i
  {
    if i < end {
      NameEndOf(input, start, i + 1, end);
    }
  }

  /** The text at i is `prefix`, whatever follows. */
  lemma TextAt(input: string, i: nat, prefix: string, rest: string)
    requires i <= |input| && input[i..] == prefix + rest
    ensures i + |prefix| <= |input| && input[i..i + |prefix|] == prefix && input[i + |prefix|..] == rest
    ensures forall k :: 0 <= k < |prefix| ==> input[i + k] == prefix[k]
  {
    assert input[i..][..|prefix|] == prefix && input[i..][|prefix|..] == rest;
    forall k | 0 <= k < |prefix| ensures input[i + k] == prefix[k] {
      assert input[i..][k] == prefix[k];
    }
  }

  predicate EndsName(rest: string) {
    rest == "" || !IdentifierChar(rest[0], false)
  }

  /** "$name", anywhere in a text, up to where the name can end. */
  lemma BareReference(input: string, i: nat, name: string, rest: string, env: Env, environ: Environ)
    requires Identifier(name) && EndsName(rest)
    requires i <= |input| && input[i..] == "$" + name + rest
    ensures i < |input| && input[i] == '$'
    ensures ReferenceAt(input, i, env, environ)
      == if name in env then Some(Reference(env[name], i + 1 + |name|)) else None
  {
    TextAt(input, i, "$" + name, rest);
    assert input[i] == '$' && input[i + 1] == name[0];
    TextAt(input, i + 1, name, rest);
    var end := i + 1 + |name|;
    if end < |input| {
      assert input[end] == input[end..][0];
    }
    NameEndOf(input, i + 1, i + 1, end);
    StartsAtChar(input, i + 1, "$", 0);
    StartsAtChar(input, i + 1, "(env.", 0);
    StartsAtChar(input, i + 1, "(", 0);
  }

  /** "$(name)", anywhere in a text. */
  lemma WrappedReference(input: string, i: nat, name: string, rest: string, env: Env, environ: Environ)
    requires Identifier(name)
    requires i <= |input| && input[i..] == "$(" + name + ")" + rest
    ensures i < |input| && input[i] == '$'
    ensures ReferenceAt(input, i, env, environ)
      == if name in env then Some(Reference(env[name], i + 3 + |name|)) else None
  {
    var text := "$(" + name + ")";
    TextAt(input, i, text, rest);
    assert input[i] == text[0] == '$' && input[i + 1] == text[1] == '(';
    var end := i + 2 + |name|;
    assert input[end] == text[2 + |name|] == ')';
    forall k | i + 2 <= k < end ensures input[k] == name[k - i - 2] {
      assert input[i + (k - i)] == text[k - i];
    }
    assert input[i + 2..end] == name && input[end..end + 1] == ")" && input[i + 1..i + 2] == "(";
    NameEndOf(input, i + 2, i + 2, end);
    StartsAtChar(input, i + 1, "$", 0);
    EnvPrefixNeedsDot(input, i, name);
  }

  lemma EnvironmentText(input: string, i: nat, name: string, rest: string)
    requires i <= |input| && input[i..] == "$(env." + name + ")" + rest
    ensures var end := i + 6 + |name|;
      && end < |input| && input[i] == '$' && input[i + 1..i + 6] == "(env."
      && input[i + 6..end] == name && input[end] == ')'
  {
    TextAt(input, i, "$", "(env." + name + ")" + rest);
    TextAt(input, i + 1, "(env.", name + ")" + rest);
    TextAt(input, i + 6, name, ")" + rest);
    TextAt(input, i + 6 + |name|, ")", rest);
  }

  lemma EnvironmentReferenceAt(input: string, i: nat, end: nat, name: string, env: Env, environ: Environ)
    requires Identifier(name) && i + 6 <= end < |input| && end == i + 6 + |name|
    requires input[i] == '$' && input[i + 1..i + 6] == "(env." && input[i + 6..end] == name && input[end] == ')'
    ensures ReferenceAt(input, i, env, environ) == Some(Reference(EnvValue(environ, name), end + 1))
  {
    assert input[end..end + 1] == ")" && input[i + 1] == input[i + 1..i + 6][0];
    forall k | i + 6 <= k < end ensures IdentifierChar(input[k], k == i + 6) {
      assert input[k] == name[k - i - 6];
    }
    NameEndOf(input, i + 6, i + 6, end);
    StartsAtChar(input, i + 1, "$", 0);
  }

  /** "$(env.NAME)", anywhere in a text: a value that the process has comes first, then
      one that the file has, and one of neither is "none". */
  lemma EnvironmentReference(input: string, i: nat, name: string, rest: string, env: Env, environ: Environ)
    requires Identifier(name)
    requires i <= |input| && input[i..] == "$(env." + name + ")" + rest
    ensures i + 7 + |name| <= |input|
    ensures FieldFrom(input, i, env, environ) == Prepend(
      if Sets(environ.process, name) then environ.process[name]
      else if Sets(environ.file, name) then environ.file[name]
      else "none", FieldFrom(input, i + 7 + |name|, env, environ))
  {
    EnvironmentText(input, i, name, rest);
    EnvironmentReferenceAt(input, i, i + 6 + |name|, name, env, environ);
  }

  predicate Sets(values: map<string, string>, name: string) {
    name in values && values[name] != ""
  }

  /** "$name" and "$(name)" both stand for the variable, and for nothing else, wherever
      they are in a text. */
  lemma ReferenceInText(input: string, i: nat, name: string, rest: string, env: Env, environ: Environ)
    requires Identifier(name) && i <= |input|
    requires input[i..] == "$(" + name + ")" + rest || (input[i..] == "$" + name + rest && EndsName(rest))
    ensures |rest| <= |input|
    ensures FieldFrom(input, i, env, environ) == if name !in env then None
      else Prepend(env[name], FieldFrom(input, |input| - |rest|, env, environ))
  {
    assert |input[i..]| == |input| - i;
    if input[i..] == "$(" + name + ")" + rest {
      WrappedReference(input, i, name, rest, env, environ);
    } else {
      BareReference(input, i, name, rest, env, environ);
    }
  }

  /** So alone in a field too. */
  lemma VariableReference(name: string, env: Env, environ: Environ)
    requires Identifier(name)
    ensures Field("$" + name, env, environ) == (if name in env then Some(env[name]) else None)
    ensures Field("$(" + name + ")", env, environ) == (if name in env then Some(env[name]) else None)
  {
    WholeReference("$" + name, name, env, environ);
    WholeReference("$(" + name + ")", name, env, environ);
  }

  lemma WholeReference(input: string, name: string, env: Env, environ: Environ)
    requires Identifier(name) && (input == "$(" + name + ")" || input == "$" + name)
    ensures Field(input, env, environ) == if name in env then Some(env[name]) else None
  {
    assert input[0..] == input && input + "" == input;
    ReferenceInText(input, 0, name, "", env, environ);
    assert FieldFrom(input, |input|, env, environ) == Some("");
    if name in env {
      assert env[name] + "" == env[name];
    }
  }

  lemma StartsAtChar(input: string, i: nat, prefix: string, k: nat)
    requires k < |prefix|
    ensures StartsAt(input, i, prefix) ==> input[i + k] == prefix[k]
  {
    if StartsAt(input, i, prefix) {
      assert input[i + k] == input[i..i + |prefix|][k];
    }
  }

  /** A name of a variable has no dot. */
  lemma EnvPrefixNeedsDot(input: string, i: nat, name: string)
    requires Identifier(name) && i + 3 + |name| <= |input| && input[i + 2 + |name|] == ')'
    requires forall k :: 0 <= k < |name| ==> input[i + 2 + k] == name[k]
    ensures !StartsAt(input, i + 1, "(env.")
  {
    var j := if |name| > 3 then 3 else |name|;
    StartsAtChar(input, i + 1, "(env.", j + 1);
    assert input[i + 2 + j] == if |name| > 3 then name[3] else ')';
    assert "(env."[j + 1] == "env."[j];
  }

  // ----- Ranges ------------------------------------------------------------------

  const UINT64_MAX: nat := 0xFFFF_FFFF_FFFF_FFFF

  predicate Number(s: string) {
    s != [] && Digits(s) && DecimalValue(s) <= UINT64_MAX
  }

  /** The digit loops of leme_expand_parse_range: 64-bit, refusing to overflow. */
  method ParseNumber(s: string) returns (n: Option<nat>)
    ensures n == if Number(s) then Some(DecimalValue(s)) else None
  {
    if |s| == 0 {
      return None;
    }
    var value, i := 0, 0;
    while i < |s|
      invariant i <= |s| && Digits(s[..i])
      invariant value == DecimalValue(s[..i]) <= UINT64_MAX
    {
      if s[i] < '0' || s[i] > '9' {
        return None;
      }
      var digit := DigitValue(s[i]);
      assert s[..i + 1][..i] == s[..i];
      if value > (UINT64_MAX - digit) / 10 {
        if Digits(s) {
          DecimalValueMonotone(s, i + 1);
        }
        return None;
      }
      value := value * 10 + digit;
      i := i + 1;
    }
    assert s[..i] == s;
    return Some(value);
  }

  predicate DotsAt(text: string, k: nat) {
    k + 2 <= |text| && text[k] == '.' && text[k + 1] == '.'
  }

  /** strstr(text + from, "..") as an index. */
  function FindDots(text: string, from: nat): (r: Option<nat>)
    ensures r.Some? ==> from <= r.value && DotsAt(text, r.value)
    ensures forall k :: from <= k && (r.None? || k < r.value) ==> !DotsAt(text, k)
    decreases |text| - from
  {
    if from + 2 > |text| then None
    else if DotsAt(text, from) then Some(from)
    else FindDots(text, from + 1)
  }

  datatype Range = Range(low: nat, high: nat)

  function RangeOf(text: string): (r: Option<Range>)
    ensures r.Some? ==> r.value.low <= r.value.high <= UINT64_MAX
  {
    var dots := FindDots(text, 0);
    if dots.None? || FindDots(text, dots.value + 2).Some? then None
    else
      var left, right := text[..dots.value], text[dots.value + 2..];
      if Number(left) && Number(right) && DecimalValue(left) <= DecimalValue(right)
        then Some(Range(DecimalValue(left), DecimalValue(right)))
      else None
  }

  method ParseRange(text: string) returns (range: Option<Range>)
    ensures range == RangeOf(text)
  {
    var dots := FindDots(text, 0);
    if dots.None? || FindDots(text, dots.value + 2).Some? {
      return None;
    }
    var low := ParseNumber(text[..dots.value]);
    if low.None? {
      return None;
    }
    var high := ParseNumber(text[dots.value + 2..]);
    if high.None? || low.value > high.value {
      return None;
    }
    return Some(Range(low.value, high.value));
  }

  lemma NoDotInDigits(s: string, text: string, at: nat)
    requires Digits(s) && at + |s| <= |text| && text[at..at + |s|] == s
    ensures forall k :: at <= k < at + |s| ==> !DotsAt(text, k)
  {
    forall k | at <= k < at + |s| ensures text[k] != '.' {
      assert text[k] == s[k - at];
    }
  }

  lemma DotsOnce(text: string, k: nat)
    requires DotsAt(text, k)
    requires forall j :: 0 <= j < k ==> !DotsAt(text, j)
    requires forall j :: k + 2 <= j < |text| ==> !DotsAt(text, j)
    ensures FindDots(text, 0) == Some(k) && FindDots(text, k + 2) == None
  {
    var first, second := FindDots(text, 0), FindDots(text, k + 2);
    assert first.Some? && first.value == k;
    assert second.None?;
  }

  /** Between two runs of digits the dots are found once. */
  lemma DotsBetweenDigits(left: string, right: string)
    requires Digits(left) && Digits(right)
    ensures FindDots(left + ".." + right, 0) == Some(|left|)
    ensures FindDots(left + ".." + right, |left| + 2) == None
  {
    var text, at := left + ".." + right, |left| + 2;
    assert text[0..0 + |left|] == left && text[at..at + |right|] == right;
    NoDotInDigits(left, text, 0);
    NoDotInDigits(right, text, at);
    assert DotsAt(text, |left|);
    DotsOnce(text, |left|);
  }

  /** "low..high" is the range it says exactly when its bounds fit in 64 bits and
      are in order. */
  lemma RangeRoundTrip(low: nat, high: nat)
    ensures RangeOf(Decimal(low) + ".." + Decimal(high))
      == if low <= high <= UINT64_MAX then Some(Range(low, high)) else None
  {
    var left, right := Decimal(low), Decimal(high);
    var text := left + ".." + right;
    DotsBetweenDigits(left, right);
    assert text[..|left|] == left && text[|left| + 2..] == right;
    DecimalRoundTrip(low);
    DecimalRoundTrip(high);
  }
}
