/** The parts of Python's runtime that the service's code relies on:
    exceptions, `str.isspace`/`str.strip`, `str.join`, slicing `s[:n]`
    and `str.format` with keyword arguments. */
module Python {

  /** The exceptions the modelled code raises, catches or re-raises. */
  datatype PyException =
    | HTTPException(statusCode: int, detail: string)
    | KeyError(key: string)
    | ValueError(message: string)
    /** A `str.format` replacement field with a conversion, a format spec,
        attribute or index access, or a positional reference: outside
        this model of `str.format`. */
    | FormatNotModelled(field: string)
    /** Any other exception, carrying its `str()`. */
    | OtherException(message: string)

  /** A Python call either returns a value or raises. */
  datatype Outcome<T> = Returned(value: T) | Raised(error: PyException)

  /** `str(e)` for the exceptions the request handler turns into text.
      A `KeyError`'s text is the repr of its key; the keys raised here are
      record field names, whose repr is the name in single quotes. */
  function Str(e: PyException): string
    requires !e.HTTPException?
  {
    match e
    case KeyError(k) => "'" + k + "'"
    case ValueError(m) => m
    case FormatNotModelled(f) => f
    case OtherException(m) => m
  }

  // ---------------------------------------------------------------------
  // str.isspace and str.strip

  /** The characters for which Python's `str.isspace()` holds: those of
      Unicode bidirectional class WS, B or S, or general category Zs. */
  predicate IsSpace(c: char) {
    || c == '\t' || c == '\n' || c == '\U{000B}' || c == '\U{000C}' || c == '\r'
    || ('\U{001C}' <= c <= '\U{001F}')
    || c == ' ' || c == '\U{0085}' || c == '\U{00A0}' || c == '\U{1680}'
    || ('\U{2000}' <= c <= '\U{200A}')
    || c == '\U{2028}' || c == '\U{2029}' || c == '\U{202F}' || c == '\U{205F}'
    || c == '\U{3000}'
  }

  predicate AllSpace(s: string) {
    forall k | 0 <= k < |s| :: IsSpace(s[k])
  }

  /** The first index at or after `i` that holds no whitespace (`|s|`
      when there is none): where `s.strip()` starts. */
  function SkipSpace(s: string, i: nat): (j: nat)
    requires i <= |s|
    decreases |s| - i
    ensures i <= j <= |s|
    ensures forall k | i <= k < j :: IsSpace(s[k])
    ensures j < |s| ==> !IsSpace(s[j])
  {
    if i < |s| && IsSpace(s[i]) then SkipSpace(s, i + 1) else i
  }

  /** The end, at or after `lo`, of `s[lo..j]` once its trailing
      whitespace is removed: where `s.strip()` ends. */
  function SkipSpaceBack(s: string, lo: nat, j: nat): (hi: nat)
    requires lo <= j <= |s|
    decreases j - lo
    ensures lo <= hi <= j
    ensures forall k | hi <= k < j :: IsSpace(s[k])
    ensures hi > lo ==> !IsSpace(s[hi - 1])
  {
    if j > lo && IsSpace(s[j - 1]) then SkipSpaceBack(s, lo, j - 1) else j
  }

  /** `s.strip()`: the slice of `s` left once leading and trailing
      whitespace is removed. It starts at `SkipSpace(s, 0)`; it neither
      starts nor ends with whitespace, and everything cut off on either
      side is whitespace. */
  function Strip(s: string): (r: string)
    ensures var lo := SkipSpace(s, 0);
            lo + |r| <= |s| && r == s[lo..lo + |r|]
            && (forall k | 0 <= k < lo :: IsSpace(s[k]))
            && (forall k | lo + |r| <= k < |s| :: IsSpace(s[k]))
    ensures r != [] ==> !IsSpace(r[0]) && !IsSpace(r[|r| - 1])
  {
    var lo := SkipSpace(s, 0);
    s[lo..SkipSpaceBack(s, lo, |s|)]
  }

  /** `s.strip()` is empty exactly when every character of `s` is
      whitespace (the empty string included). */
  lemma StripEmptyIffAllSpace(s: string)
    ensures Strip(s) == [] <==> AllSpace(s)
  {
    var r := Strip(s);
    var lo := SkipSpace(s, 0);
    if r != [] {
      assert s[lo] == r[0];
    }
  }

  // ---------------------------------------------------------------------
  // str.join and slicing

  /** `sep.join(parts)`. */
  function Join(parts: seq<string>, sep: string): string {
    if |parts| == 0 then ""
    else if |parts| == 1 then parts[0]
    else parts[0] + sep + Join(parts[1..], sep)
  }

  /** Where `parts[k]` starts inside `sep.join(parts)`: every earlier part
      followed by one separator. */
  function Offset(parts: seq<string>, sep: string, k: nat): nat
    requires k <= |parts|
  {
    if k == 0 then 0 else |parts[0]| + |sep| + Offset(parts[1..], sep, k - 1)
  }

  lemma {:induction false} OffsetNext(parts: seq<string>, sep: string, k: nat)
    requires k < |parts|
    ensures Offset(parts, sep, k + 1) == Offset(parts, sep, k) + |parts[k]| + |sep|
  {
    if k > 0 {
      OffsetNext(parts[1..], sep, k - 1);
    }
  }

  /** A slice of the part after `prefix` is the same slice of that part. */
  lemma SliceAfter(prefix: string, rest: string, a: nat, b: nat)
    requires a <= b <= |rest|
    ensures (prefix + rest)[|prefix| + a..|prefix| + b] == rest[a..b]
  {
  }

  lemma JoinLayoutFirst(parts: seq<string>, sep: string)
    requires 1 < |parts|
    ensures Join(parts, sep) == parts[0] + sep + Join(parts[1..], sep)
    ensures Join(parts, sep)[..|parts[0]|] == parts[0]
    ensures Join(parts, sep)[|parts[0]|..|parts[0]| + |sep|] == sep
  {
  }

  /** `parts[k]` sits in `sep.join(parts)` at its offset; the last part
      ends the text. */
  lemma {:induction false} JoinPartAt(parts: seq<string>, sep: string, k: nat)
    requires k < |parts|
    ensures Offset(parts, sep, k) + |parts[k]| <= |Join(parts, sep)|
    ensures Join(parts, sep)[Offset(parts, sep, k)..Offset(parts, sep, k) + |parts[k]|] == parts[k]
    ensures k + 1 == |parts| ==> Offset(parts, sep, k) + |parts[k]| == |Join(parts, sep)|
  {
    if |parts| == 1 {
    } else if k == 0 {
      JoinLayoutFirst(parts, sep);
    } else {
      var head := parts[0] + sep;
      var rest := Join(parts[1..], sep);
      JoinLayoutFirst(parts, sep);
      JoinPartAt(parts[1..], sep, k - 1);
      var o := Offset(parts[1..], sep, k - 1);
      assert parts[1..][k - 1] == parts[k];
      SliceAfter(head, rest, o, o + |parts[k]|);
    }
  }

  /** One separator follows every part but the last. */
  lemma {:induction false} JoinSeparatorAfter(parts: seq<string>, sep: string, k: nat)
    requires k + 1 < |parts|
    ensures Offset(parts, sep, k + 1) == Offset(parts, sep, k) + |parts[k]| + |sep| <= |Join(parts, sep)|
    ensures Join(parts, sep)[Offset(parts, sep, k) + |parts[k]|..Offset(parts, sep, k + 1)] == sep
  {
    OffsetNext(parts, sep, k);
    JoinLayoutFirst(parts, sep);
    if k > 0 {
      var head := parts[0] + sep;
      var rest := Join(parts[1..], sep);
      JoinSeparatorAfter(parts[1..], sep, k - 1);
      OffsetNext(parts[1..], sep, k - 1);
      var a := Offset(parts[1..], sep, k - 1) + |parts[k]|;
      assert parts[1..][k - 1] == parts[k];
      SliceAfter(head, rest, a, a + |sep|);
    }
  }

  /** `sep.join(parts)` holds every part, in order, at its offset, with
      exactly one separator between neighbours and nothing after the last. */
  lemma JoinLayout(parts: seq<string>, sep: string, k: nat)
    requires k < |parts|
    ensures Offset(parts, sep, k) + |parts[k]| <= |Join(parts, sep)|
    ensures Join(parts, sep)[Offset(parts, sep, k)..Offset(parts, sep, k) + |parts[k]|] == parts[k]
    ensures k + 1 < |parts| ==>
      Offset(parts, sep, k + 1) == Offset(parts, sep, k) + |parts[k]| + |sep| <= |Join(parts, sep)|
    ensures k + 1 < |parts| ==>
      Join(parts, sep)[Offset(parts, sep, k) + |parts[k]|..Offset(parts, sep, k + 1)] == sep
    ensures k + 1 == |parts| ==> Offset(parts, sep, k) + |parts[k]| == |Join(parts, sep)|
  {
    JoinPartAt(parts, sep, k);
    if k + 1 < |parts| {
      JoinSeparatorAfter(parts, sep, k);
    }
  }

  /** `s[:n]` for a non-negative `n`: the longest prefix of `s` with at
      most `n` characters. */
  function Truncate(s: string, n: nat): (r: string)
    ensures |r| <= n && r <= s
    ensures |s| <= n ==> r == s
    ensures |s| > n ==> |r| == n
  {
    if |s| <= n then s else s[..n]
  }

  // ---------------------------------------------------------------------
  // str.format with keyword arguments

  predicate IsBrace(c: char) {
    c == '{' || c == '}'
  }

  /** A text with no `{` and no `}`: `str.format` copies it unchanged. */
  predicate BraceFree(s: string) {
    forall k | 0 <= k < |s| :: !IsBrace(s[k])
  }

  /** The index of the `}` that closes a replacement field whose contents
      start at `i`, at nesting `depth` (a `{` inside the field opens a
      nested level, as a format spec may hold nested fields); `|t|` when
      the text ends first. */
  function FieldEnd(t: string, i: nat, depth: nat): (j: nat)
    requires i <= |t|
    decreases |t| - i
    ensures i <= j <= |t|
    ensures j < |t| ==> t[j] == '}'
  {
    if i == |t| then |t|
    else if t[i] == '{' then FieldEnd(t, i + 1, depth + 1)
    else if t[i] == '}' then (if depth <= 1 then i else FieldEnd(t, i + 1, depth - 1))
    else FieldEnd(t, i + 1, depth)
  }

  /** The length of a field's name part: everything before the first
      `!` (a conversion) or `:` (a format spec). */
  function NameLength(field: string): (n: nat)
    ensures n <= |field|
    ensures forall k | 0 <= k < n :: field[k] != '!' && field[k] != ':'
    ensures n < |field| ==> field[n] == '!' || field[n] == ':'
  {
    if field == [] || field[0] == '!' || field[0] == ':' then 0
    else 1 + NameLength(field[1..])
  }

  /** A field that is a bare keyword name: not empty, not a positional
      index, and without conversion, format spec, attribute or index. */
  predicate PlainName(field: string) {
    && field != []
    && !('0' <= field[0] <= '9')
    && forall k | 0 <= k < |field| :: field[k] !in "{}!:.[]"
  }

  /** The text a replacement field `{field}` stands for. */
  function FieldValue(field: string, args: map<string, string>): Outcome<string> {
    var n := NameLength(field);
    if exists k | 0 <= k < n :: field[k] == '{' then Raised(ValueError("unexpected '{' in field name"))
    else if !PlainName(field) then Raised(FormatNotModelled(field))
    else if field in args then Returned(args[field])
    else Raised(KeyError(field))
  }

  function Prefixed(s: string, o: Outcome<string>): Outcome<string> {
    match o
    case Returned(v) => Returned(s + v)
    case Raised(_) => o
  }

  /** `t.format(**args)`, scanning left to right: `{{` and `}}` stand for
      one brace, `{name}` for the keyword argument `name`, and the first
      malformed or unknown field raises. */
  function Format(t: string, args: map<string, string>): (r: Outcome<string>)
    decreases |t|
    ensures r.Raised? ==> r.error.ValueError? || r.error.KeyError? || r.error.FormatNotModelled?
    ensures r.Raised? && r.error.KeyError? ==> r.error.key !in args
  {
    if t == [] then Returned([])
    else if t[0] == '{' then
      if |t| == 1 then Raised(ValueError("Single '{' encountered in format string"))
      else if t[1] == '{' then Prefixed("{", Format(t[2..], args))
      else
        var j := FieldEnd(t, 1, 1);
        if j == |t| then Raised(ValueError("expected '}' before end of string"))
        else
          match FieldValue(t[1..j], args)
          case Raised(e) => Raised(e)
          case Returned(v) => Prefixed(v, Format(t[j + 1..], args))
    else if t[0] == '}' then
      if |t| >= 2 && t[1] == '}' then Prefixed("}", Format(t[2..], args))
      else Raised(ValueError("Single '}' encountered in format string"))
    else Prefixed([t[0]], Format(t[1..], args))
  }

  /** Formatting passes brace-free text through unchanged, ahead of
      whatever the rest of the template formats to. */
  lemma {:induction false} FormatLiteral(s: string, rest: string, args: map<string, string>)
    requires BraceFree(s)
    ensures Format(s + rest, args) == Prefixed(s, Format(rest, args))
  {
    if s != [] {
      assert (s + rest)[0] == s[0] && (s + rest)[1..] == s[1..] + rest;
      assert !IsBrace(s[0]);
      FormatLiteral(s[1..], rest, args);
      match Format(rest, args)
      case Returned(v) =>
        assert [s[0]] + (s[1..] + v) == s + v;
      case Raised(_) =>
    } else {
      assert s + rest == rest;
      match Format(rest, args)
      case Returned(v) =>
        assert s + v == v;
      case Raised(_) =>
    }
  }

  /** A brace-free template formats to itself, whatever the arguments. */
  lemma FormatBraceFree(t: string, args: map<string, string>)
    requires BraceFree(t)
    ensures Format(t, args) == Returned(t)
  {
    FormatLiteral(t, [], args);
    assert t + [] == t;
  }

  lemma {:induction false} FieldEndAt(t: string, i: nat, j: nat)
    requires i <= j < |t| && t[j] == '}'
    requires forall k | i <= k < j :: !IsBrace(t[k])
    ensures FieldEnd(t, i, 1) == j
    decreases j - i
  {
    if i < j {
      FieldEndAt(t, i + 1, j);
    }
  }

  /** A placeholder `{name}` for a supplied keyword argument is replaced
      by that argument's text. */
  lemma FormatPlaceholder(name: string, rest: string, args: map<string, string>)
    requires PlainName(name) && name in args
    ensures Format("{" + name + "}" + rest, args) == Prefixed(args[name], Format(rest, args))
  {
    var t := "{" + name + "}" + rest;
    var j := |name| + 1;
    assert t[1..j] == name && t[j] == '}' && t[j + 1..] == rest;
    assert forall k | 1 <= k < j :: t[k] == name[k - 1];
    FieldEndAt(t, 1, j);
    assert NameLength(name) <= |name|;
  }
}
