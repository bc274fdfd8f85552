/**
 The `Authorization` header of HTTP Digest (section 3.4 of RFC 7616): the printer, with the
 quoted-string of section 5.6.4 of RFC 9110, and the single-pass tokenizer that reads headers
 coming from the network.
 */
module DigestAuth {
  import opened Text
  import opened Wrappers

  const QUOTE := '"'
  const BACKSLASH := '\\'
  const BLANKS := " \t"
  const SEPARATORS := " \t,"

  const KNOWN_PARAMS: set<string> := {
    "realm", "nonce", "qop", "opaque", "algorithm", "stale", "domain", "charset", "userhash",
    "username", "uri", "response", "nc", "cnonce"
  }

  predicate IsTokenChar(c: char) {
    'A' <= c <= 'Z' || 'a' <= c <= 'z' || '0' <= c <= '9' || c in "!#$%&'*+.^_`|~-"
  }

  /** Any visible ASCII character that is not a delimiter: section 5.6.2 of RFC 9110. */
  lemma TokenCharsExactly(c: char)
    ensures IsTokenChar(c) <==> '!' <= c <= '~' && c !in "\"(),/:;<=>?@[\\]{}"
  {
  }

  // ---------------------------------------------------------------- tokenizer

  datatype Part = Part(scheme: string, params: map<string, string>)

  function DropWhile(s: string, chars: string): (r: string)
    ensures |r| <= |s|
  {
    if s != "" && s[0] in chars then DropWhile(s[1..], chars) else s
  }

  function TokenLength(s: string): (n: nat)
    ensures n <= |s|
  {
    if s != "" && IsTokenChar(s[0]) then 1 + TokenLength(s[1..]) else 0
  }

  function PlainLength(s: string): (n: nat)
    ensures n <= |s|
  {
    if s != "" && s[0] !in SEPARATORS then 1 + PlainLength(s[1..]) else 0
  }

  /** The value of a quoted string after its opening quote, and the text from its closing one. */
  function Unquote(s: string): (r: (string, string))
    ensures |r.1| <= |s|
  {
    if s == "" || s[0] == QUOTE then ("", s)
    else if s[0] == BACKSLASH && |s| > 1 then
      var (value, rest) := Unquote(s[2..]);
      ([s[1]] + value, rest)
    else
      var (value, rest) := Unquote(s[1..]);
      ([s[0]] + value, rest)
  }

  function Tail(s: string): string {
    if s == "" then "" else s[1..]
  }

  /** Parameters belong to the latest scheme; unknown ones are dropped. */
  function SetParam(parts: seq<Part>, key: string, value: string): seq<Part> {
    if parts == [] || key !in KNOWN_PARAMS then parts
    else
      var last := parts[|parts| - 1];
      parts[|parts| - 1 := last.(params := last.params[key := value])]
  }

  /** A value and what follows it. */
  function ReadValue(v: string): (r: (string, string))
    ensures |r.1| <= |v|
  {
    if v != "" && v[0] == QUOTE then
      var (value, end) := Unquote(v[1..]);
      (value, Tail(end))
    else
      (v[..PlainLength(v)], v[PlainLength(v)..])
  }

  /** What a name turns out to be: a scheme, or a parameter when `=` follows. */
  function AfterName(name: string, s: string, parts: seq<Part>): (r: (string, seq<Part>))
    ensures |r.0| <= |s|
  {
    var rest := DropWhile(s, BLANKS);
    if rest == "" || rest[0] != '=' then (rest, parts + [Part(name, map[])])
    else
      var (value, end) := ReadValue(DropWhile(rest[1..], BLANKS));
      (end, SetParam(parts, Lower(name), value))
  }

  /** One pass of the outer loop over what is left of the header. */
  function Pass(s: string, parts: seq<Part>): (string, seq<Part>) {
    var t := DropWhile(s, SEPARATORS);
    var n := TokenLength(t);
    if n == 0 then (Tail(t), parts) else AfterName(t[..n], t[n..], parts)
  }

  /** Every pass consumes input, so a header of n characters takes at most n passes. */
  lemma PassAdvances(s: string, parts: seq<Part>)
    requires s != ""
    ensures |Pass(s, parts).0| < |s|
  {
  }

  function Tokenize(s: string, parts: seq<Part>): seq<Part>
    decreases |s|
  {
    if s == "" then parts
    else
      PassAdvances(s, parts);
      var (rest, next) := Pass(s, parts);
      Tokenize(rest, next)
  }

  // `input.slice(i)`, for an index that may have stepped one past the end.
  function From(input: string, i: nat): string {
    if i <= |input| then input[i..] else ""
  }

  lemma FromWithin(input: string, i: nat)
    requires i <= |input|
    ensures From(input, i) == input[i..]
  {
  }

  lemma FromTail(input: string, i: nat)
    requires i <= |input|
    ensures From(input, i + 1) == Tail(input[i..])
  {
  }

  method Skip(input: string, i: nat, chars: string) returns (j: nat)
    requires i <= |input|
    ensures i <= j <= |input| && input[j..] == DropWhile(input[i..], chars)
  {
    j := i;
    while j < |input| && input[j] in chars
      invariant i <= j <= |input| && DropWhile(input[j..], chars) == DropWhile(input[i..], chars)
    {
      assert input[j..][1..] == input[j + 1..];
      j := j + 1;
    }
  }

  method Token(input: string, i: nat) returns (j: nat)
    requires i <= |input|
    ensures j == i + TokenLength(input[i..]) && j <= |input|
  {
    j := i;
    while j < |input| && IsTokenChar(input[j])
      invariant i <= j <= |input| && j + TokenLength(input[j..]) == i + TokenLength(input[i..])
    {
      assert input[j..][1..] == input[j + 1..];
      j := j + 1;
    }
  }

  method Plain(input: string, i: nat) returns (j: nat)
    requires i <= |input|
    ensures j == i + PlainLength(input[i..]) && j <= |input|
  {
    j := i;
    while j < |input| && input[j] != ',' && input[j] != ' ' && input[j] != '\t'
      invariant i <= j <= |input| && j + PlainLength(input[j..]) == i + PlainLength(input[i..])
    {
      assert input[j..][1..] == input[j + 1..];
      j := j + 1;
    }
  }

  lemma UnquoteEscaped(input: string, j: nat)
    requires j + 1 < |input| && input[j] == BACKSLASH
    ensures Unquote(input[j..]) == ([input[j + 1]] + Unquote(input[j + 2..]).0, Unquote(input[j + 2..]).1)
  {
    assert input[j..][2..] == input[j + 2..];
  }

  lemma UnquotePlain(input: string, j: nat)
    requires j < |input| && input[j] != QUOTE && !(input[j] == BACKSLASH && j + 1 < |input|)
    ensures Unquote(input[j..]) == ([input[j]] + Unquote(input[j + 1..]).0, Unquote(input[j + 1..]).1)
  {
    assert input[j..][1..] == input[j + 1..];
  }

  lemma UnquoteEnds(input: string, j: nat)
    requires j <= |input| && (j == |input| || input[j] == QUOTE)
    ensures Unquote(input[j..]) == ("", input[j..])
  {
  }

  method QuotedValue(input: string, i: nat) returns (value: string, j: nat)
    requires i <= |input|
    ensures i <= j <= |input| && (value, input[j..]) == Unquote(input[i..])
  {
    hide Unquote;
    value := "";
    j := i;
    assert "" + Unquote(input[i..]).0 == Unquote(input[i..]).0;
    while j < |input| && input[j] != QUOTE
      invariant i <= j <= |input|
      invariant (value + Unquote(input[j..]).0, Unquote(input[j..]).1) == Unquote(input[i..])
    {
      if input[j] == BACKSLASH && j + 1 < |input| {
        UnquoteEscaped(input, j);
        j := j + 1;
      } else {
        UnquotePlain(input, j);
      }
      assert value + ([input[j]] + Unquote(input[j + 1..]).0) == (value + [input[j]]) + Unquote(input[j + 1..]).0;
      value := value + [input[j]];
      j := j + 1;
    }
    UnquoteEnds(input, j);
    assert value + "" == value;
  }

  method TokenizeAuthHeader(input: string) returns (parts: seq<Part>)
    ensures parts == Tokenize(input, [])
  {
    parts := [];
    var i: nat := 0;
    while i < |input|
      invariant Tokenize(From(input, i), parts) == Tokenize(input, [])
      decreases |input| - i
    {
      PassAdvances(input[i..], parts);
      i, parts := OnePass(input, i, parts);
    }
  }

  method Value(input: string, start: nat) returns (value: string, i: nat)
    requires start <= |input|
    ensures start <= i && (value, From(input, i)) == ReadValue(input[start..])
  {
    hide ReadValue, From, Tail, Unquote, PlainLength;
    if start < |input| && input[start] == QUOTE {
      value, i := QuotedValue(input, start + 1);
      ReadQuoted(input, start, value, i);
      FromTail(input, i);
      i := i + 1;
    } else {
      i := Plain(input, start);
      value := input[start..i];
      ReadPlain(input, start, i);
      FromWithin(input, i);
    }
  }

  lemma ReadQuoted(input: string, start: nat, value: string, end: nat)
    requires start < |input| && input[start] == QUOTE && end <= |input|
    requires (value, input[end..]) == Unquote(input[start + 1..])
    ensures ReadValue(input[start..]) == (value, Tail(input[end..]))
  {
    hide Unquote, Tail;
    assert input[start..][1..] == input[start + 1..];
  }

  lemma ReadPlain(input: string, start: nat, end: nat)
    requires start <= |input| && (start == |input| || input[start] != QUOTE)
    requires end == start + PlainLength(input[start..]) && end <= |input|
    ensures ReadValue(input[start..]) == (input[start..end], input[end..])
  {
    SliceAt(input, start, end);
    PlainValue(input[start..]);
    hide ReadValue, PlainLength;
  }

  lemma SliceAt(input: string, start: nat, end: nat)
    requires start <= end <= |input|
    ensures input[start..][..end - start] == input[start..end] && input[start..][end - start..] == input[end..]
  {
  }

  lemma PlainValue(v: string)
    requires v == "" || v[0] != QUOTE
    ensures ReadValue(v) == (v[..PlainLength(v)], v[PlainLength(v)..])
  {
    hide PlainLength, Unquote;
  }

  method OnePass(input: string, start: nat, before: seq<Part>) returns (i: nat, parts: seq<Part>)
    requires start < |input|
    ensures start < i && (From(input, i), parts) == Pass(input[start..], before)
  {
    i := Skip(input, start, SEPARATORS);
    var end := Token(input, i);
    var name := input[i..end];
    assert name == input[i..][..end - i] && input[end..] == input[i..][end - i..];
    if name == "" {
      FromTail(input, i);
      return i + 1, before;
    }
    i, parts := Named(input, end, name, before);
  }

  method Named(input: string, end: nat, name: string, before: seq<Part>) returns (i: nat, parts: seq<Part>)
    requires end <= |input|
    ensures end <= i && (From(input, i), parts) == AfterName(name, input[end..], before)
  {
    i := Skip(input, end, BLANKS);
    if i == |input| || input[i] != '=' {
      return i, before + [Part(name, map[])];
    }
    assert input[i..][1..] == input[i + 1..];
    i := Skip(input, i + 1, BLANKS);
    var value;
    value, i := Value(input, i);
    parts := SetParam(before, Lower(name), value);
  }

  // ---------------------------------------------------------------- printer

  datatype Algorithm = MD5 | MD5Sess | SHA256 | SHA256Sess

  function AlgorithmName(a: Algorithm): string {
    match a
    case MD5 => "MD5"
    case MD5Sess => "MD5-sess"
    case SHA256 => "SHA-256"
    case SHA256Sess => "SHA-256-sess"
  }

  datatype DigestChallenge = DigestChallenge(
    realm: string,
    nonce: string,
    qop: bool,
    opaqueValue: Option<string>,
    algorithm: Algorithm
  )

  /** `response` is the hash of section 3.4.1; hashing itself is outside the model. */
  datatype DigestRequest = DigestRequest(
    uri: string,
    username: string,
    nonceCount: nat,
    cnonce: string,
    response: string
  )

  function HexDigit(d: nat): char
    requires d < 16
  {
    "0123456789abcdef"[d]
  }

  function Hex(n: nat): string {
    if n < 16 then [HexDigit(n)] else Hex(n / 16) + [HexDigit(n % 16)]
  }

  function PadStart(s: string, width: nat): string
    decreases width - |s|
  {
    if |s| < width then PadStart("0" + s, width) else s
  }

  function FormatNonceCount(count: nat): string {
    PadStart(Hex(count), 8)
  }

  /** `value.replace(/c/g, '\\c')`. */
  function Escape(s: string, c: char): string {
    if s == "" then ""
    else (if s[0] == c then [BACKSLASH, c] else [s[0]]) + Escape(s[1..], c)
  }

  function Quote(s: string): string {
    Escape(Escape(s, BACKSLASH), QUOTE)
  }

  /** Escaped in quotes, in quotes as it is, or bare. */
  datatype Field =
    | Escaped(key: string, value: string)
    | Raw(key: string, value: string)
    | Bare(key: string, value: string)

  function Print(f: Field): string {
    match f
    case Escaped(key, value) => key + "=\"" + Quote(value) + "\""
    case Raw(key, value) => key + "=\"" + value + "\""
    case Bare(key, value) => key + "=" + value
  }

  function IdentityFields(c: DigestChallenge, r: DigestRequest): seq<Field> {
    [
      Escaped("username", r.username), Escaped("realm", c.realm), Escaped("nonce", c.nonce), Escaped("uri", r.uri),
      Bare("algorithm", AlgorithmName(c.algorithm)), Raw("response", r.response)
    ]
  }

  function QopFields(c: DigestChallenge, r: DigestRequest): seq<Field> {
    if c.qop then [Bare("qop", "auth"), Bare("nc", FormatNonceCount(r.nonceCount)), Raw("cnonce", r.cnonce)] else []
  }

  function OpaqueFields(c: DigestChallenge): seq<Field> {
    if c.opaqueValue.Some? then [Escaped("opaque", c.opaqueValue.value)] else []
  }

  function Fields(c: DigestChallenge, r: DigestRequest): seq<Field> {
    IdentityFields(c, r) + QopFields(c, r) + OpaqueFields(c)
  }

  function Join(fields: seq<Field>): string {
    if fields == [] then ""
    else if |fields| == 1 then Print(fields[0])
    else Print(fields[0]) + ", " + Join(fields[1..])
  }

  function DigestAuthorization(c: DigestChallenge, r: DigestRequest): string {
    "Digest " + Join(Fields(c, r))
  }

  /** The parameters of the first Digest part, or none. */
  function FindDigest(parts: seq<Part>): map<string, string> {
    if parts == [] then map[]
    else if Lower(parts[0].scheme) == "digest" then parts[0].params
    else FindDigest(parts[1..])
  }

  function ParseDigestAuthorization(header: string): map<string, string> {
    FindDigest(Tokenize(header, []))
  }

  // ---------------------------------------------------------------- round trip

  /** Text that survives quotes without escaping: what a hexadecimal hash or nonce is. */
  predicate IsPlain(s: string) {
    QUOTE !in s && BACKSLASH !in s
  }

  function EscapedChar(c: char): string {
    if c == BACKSLASH || c == QUOTE then [BACKSLASH, c] else [c]
  }

  lemma QuoteStep(s: string)
    requires s != ""
    ensures Quote(s) == EscapedChar(s[0]) + Quote(s[1..])
  {
    var e := Escape(s, BACKSLASH);
    if s[0] == BACKSLASH {
      assert e[0] == BACKSLASH && e[1..][0] == BACKSLASH && e[1..][1..] == Escape(s[1..], BACKSLASH);
      assert Escape(e, QUOTE) == [BACKSLASH] + ([BACKSLASH] + Quote(s[1..]));
    } else {
      assert e[1..] == Escape(s[1..], BACKSLASH);
    }
  }

  lemma UnquoteChar(c: char, s: string)
    ensures Unquote(EscapedChar(c) + s) == ([c] + Unquote(s).0, Unquote(s).1)
  {
    var text := EscapedChar(c) + s;
    if c == BACKSLASH || c == QUOTE {
      assert text[0] == BACKSLASH && text[1] == c && text[2..] == s;
    } else {
      assert text[0] == c && text[1..] == s;
    }
  }

  lemma {:induction false} UnquoteQuote(s: string, rest: string)
    ensures Unquote(Quote(s) + [QUOTE] + rest) == (s, [QUOTE] + rest)
  {
    if s == "" {
      assert Quote(s) + [QUOTE] + rest == [QUOTE] + rest;
    } else {
      QuoteStep(s);
      UnquoteQuote(s[1..], rest);
      var tail := Quote(s[1..]) + [QUOTE] + rest;
      assert Quote(s) + [QUOTE] + rest == EscapedChar(s[0]) + tail;
      UnquoteChar(s[0], tail);
      assert [s[0]] + s[1..] == s;
    }
  }

  lemma {:induction false} PlainNeedsNoQuote(s: string)
    requires IsPlain(s)
    ensures Quote(s) == s
  {
    if s != "" {
      assert forall c :: c in s[1..] ==> c in s;
      QuoteStep(s);
      PlainNeedsNoQuote(s[1..]);
    }
  }

  lemma {:induction false} DropAll(blanks: string, s: string, chars: string)
    requires forall i :: 0 <= i < |blanks| ==> blanks[i] in chars
    requires s == "" || s[0] !in chars
    ensures DropWhile(blanks + s, chars) == s
  {
    if blanks == "" {
      assert blanks + s == s;
    } else {
      assert (blanks + s)[1..] == blanks[1..] + s;
      DropAll(blanks[1..], s, chars);
    }
  }

  lemma {:induction false} TokenStops(name: string, s: string)
    requires forall i :: 0 <= i < |name| ==> IsTokenChar(name[i])
    requires s != "" && !IsTokenChar(s[0])
    ensures TokenLength(name + s) == |name|
  {
    if name == "" {
      assert name + s == s;
    } else {
      assert (name + s)[1..] == name[1..] + s;
      TokenStops(name[1..], s);
    }
  }

  lemma {:induction false} PlainStops(value: string, s: string)
    requires forall i :: 0 <= i < |value| ==> value[i] !in SEPARATORS
    requires s == "" || s[0] in SEPARATORS
    ensures PlainLength(value + s) == |value|
  {
    if value == "" {
      assert value + s == s;
    } else {
      assert (value + s)[1..] == value[1..] + s;
      PlainStops(value[1..], s);
    }
  }

  predicate IsName(key: string) {
    key in KNOWN_PARAMS && key != "" && Lower(key) == key && forall i :: 0 <= i < |key| ==> IsTokenChar(key[i])
  }

  predicate Readable(f: Field) {
    && IsName(f.key)
    && (f.Raw? ==> IsPlain(f.value))
    && (f.Bare? ==> f.value != "" && f.value[0] != QUOTE && forall i :: 0 <= i < |f.value| ==>
                                                                          f.value[i] !in SEPARATORS)
  }

  /** The tokenizer up to the first character after a name. */
  lemma PassToName(sep: string, name: string, s: string, parts: seq<Part>)
    requires forall i :: 0 <= i < |sep| ==> sep[i] in SEPARATORS
    requires name != "" && forall i :: 0 <= i < |name| ==> IsTokenChar(name[i])
    requires s != "" && !IsTokenChar(s[0])
    ensures Pass(sep + (name + s), parts) == AfterName(name, s, parts)
  {
    var t := name + s;
    assert t[0] == name[0] && IsTokenChar(name[0]);
    DropAll(sep, t, SEPARATORS);
    TokenStops(name, s);
    assert t[..|name|] == name && t[|name|..] == s;
  }

  lemma PassName(sep: string, key: string, v: string, parts: seq<Part>)
    requires IsName(key) && forall i :: 0 <= i < |sep| ==> sep[i] in SEPARATORS
    requires v != "" && v[0] !in BLANKS
    ensures Pass(sep + (key + ("=" + v)), parts) == (ReadValue(v).1, SetParam(parts, key, ReadValue(v).0))
  {
    var s := "=" + v;
    PassToName(sep, key, s, parts);
    assert DropWhile(s, BLANKS) == s && s[1..] == v && DropWhile(v, BLANKS) == v;
  }

  lemma PassField(sep: string, f: Field, rest: string, parts: seq<Part>)
    requires Readable(f) && forall i :: 0 <= i < |sep| ==> sep[i] in SEPARATORS
    requires rest == "" || rest[0] == ','
    ensures Pass(sep + Print(f) + rest, parts) == (rest, SetParam(parts, f.key, f.value))
  {
    hide Pass, SetParam, Quote, IsName;
    match f
    case Bare(key, value) => PassBare(sep, key, value, rest, parts);
    case Raw(key, value) =>
      PlainNeedsNoQuote(value);
      PassQuoted(sep, key, value, rest, parts);
    case Escaped(key, value) => PassQuoted(sep, key, value, rest, parts);
  }

  lemma PassBare(sep: string, key: string, value: string, rest: string, parts: seq<Part>)
    requires IsName(key) && forall i :: 0 <= i < |sep| ==> sep[i] in SEPARATORS
    requires value != "" && value[0] != QUOTE && forall i :: 0 <= i < |value| ==> value[i] !in SEPARATORS
    requires rest == "" || rest[0] == ','
    ensures Pass(sep + (key + "=" + value) + rest, parts) == (rest, SetParam(parts, key, value))
  {
    hide Pass, SetParam, IsName;
    var v := value + rest;
    assert sep + (key + "=" + value) + rest == sep + (key + ("=" + v));
    assert v[0] == value[0];
    PassName(sep, key, v, parts);
    PlainStops(value, rest);
    assert v[|value|..] == rest && v[..|value|] == value;
  }

  lemma PassQuoted(sep: string, key: string, value: string, rest: string, parts: seq<Part>)
    requires IsName(key) && forall i :: 0 <= i < |sep| ==> sep[i] in SEPARATORS
    ensures Pass(sep + (key + "=\"" + Quote(value) + "\"") + rest, parts) == (rest, SetParam(parts, key, value))
  {
    hide Pass, SetParam, IsName, Quote;
    var v := [QUOTE] + (Quote(value) + [QUOTE] + rest);
    assert sep + (key + "=\"" + Quote(value) + "\"") + rest == sep + (key + ("=" + v));
    PassName(sep, key, v, parts);
    assert v[1..] == Quote(value) + [QUOTE] + rest;
    UnquoteQuote(value, rest);
    assert ([QUOTE] + rest)[1..] == rest;
  }

  /** The parameters a list of fields sets, the later of two equal keys winning. */
  function ParamsOf(params: map<string, string>, fields: seq<Field>): map<string, string>
    decreases |fields|
  {
    if fields == [] then params else ParamsOf(params[fields[0].key := fields[0].value], fields[1..])
  }

  lemma {:induction false} TokenizeFields(sep: string, fields: seq<Field>, params: map<string, string>)
    requires fields != [] && forall i :: 0 <= i < |fields| ==> Readable(fields[i])
    requires sep == "" || sep == ", "
    ensures Tokenize(sep + Join(fields), [Part("Digest", params)]) == [Part("Digest", ParamsOf(params, fields))]
    decreases |fields|
  {
    var f := fields[0];
    var next := params[f.key := f.value];
    TokenizeOne(sep, fields, params);
    if |fields| > 1 {
      TokenizeFields(", ", fields[1..], next);
    } else {
      assert fields[1..] == [];
    }
  }

  /** The pass over the first field of a list. */
  lemma TokenizeOne(sep: string, fields: seq<Field>, params: map<string, string>)
    requires fields != [] && Readable(fields[0])
    requires sep == "" || sep == ", "
    ensures Tokenize(sep + Join(fields), [Part("Digest", params)])
         == Tokenize(if |fields| == 1 then ""
                     else ", " + Join(fields[1..]), [Part("Digest", params[fields[0].key := fields[0].value])])
  {
    var f := fields[0];
    var parts := [Part("Digest", params)];
    var more := if |fields| == 1 then "" else ", " + Join(fields[1..]);
    assert SetParam(parts, f.key, f.value) == [Part("Digest", params[f.key := f.value])];
    assert Print(f) != "";
    hide Pass, Print, Readable, SetParam;
    assert sep + Join(fields) == sep + Print(f) + more;
    PassField(sep, f, more, parts);
  }

  lemma TokenizeScheme(s: string)
    requires s != "" && s[0] !in BLANKS && s[0] != '='
    ensures Tokenize("Digest " + s, []) == Tokenize(s, [Part("Digest", map[])])
  {
    var t := " " + s;
    hide Pass, AfterName;
    assert "Digest " + s == "" + ("Digest" + t);
    PassToName("", "Digest", t, []);
    AfterScheme(s);
  }

  lemma AfterScheme(s: string)
    requires s != "" && s[0] !in BLANKS && s[0] != '='
    ensures AfterName("Digest", " " + s, []) == (s, [Part("Digest", map[])])
  {
    var t := " " + s;
    assert t[1..] == s && DropWhile(s, BLANKS) == s && DropWhile(t, BLANKS) == s;
    assert [] + [Part("Digest", map[])] == [Part("Digest", map[])];
  }

  // ---------------------------------------------------------------- the whole header

  predicate IsHexDigit(c: char) {
    '0' <= c <= '9' || 'a' <= c <= 'f'
  }

  predicate IsHex(s: string) {
    s != "" && forall i :: 0 <= i < |s| ==> IsHexDigit(s[i])
  }

  function HexValue(s: string): nat {
    if s == "" then 0
    else
      var c := s[|s| - 1];
      16 * HexValue(s[..|s| - 1]) + (if '0' <= c <= '9' then c as int - '0' as int
                                     else if 'a' <= c <= 'f' then c as int - 'a' as int + 10 else 0)
  }

  lemma HexAppend(s: string, d: nat)
    requires d < 16
    ensures HexValue(s + [HexDigit(d)]) == 16 * HexValue(s) + d
    ensures IsHexDigit(HexDigit(d))
  {
    var t := s + [HexDigit(d)];
    assert t[..|t| - 1] == s;
  }

  lemma {:induction false} HexRoundTrip(n: nat)
    ensures IsHex(Hex(n)) && HexValue(Hex(n)) == n
  {
    if n < 16 {
      HexAppend("", n);
      assert "" + [HexDigit(n)] == Hex(n);
    } else {
      HexRoundTrip(n / 16);
      HexAppend(Hex(n / 16), n % 16);
    }
  }

  lemma {:induction false} LeadingZero(s: string)
    ensures HexValue("0" + s) == HexValue(s)
  {
    var t := "0" + s;
    if s == "" {
      assert t[..0] == "";
    } else {
      assert t[..|t| - 1] == "0" + s[..|s| - 1];
      LeadingZero(s[..|s| - 1]);
    }
  }

  lemma {:induction false} PaddingKeepsValue(s: string, width: nat)
    requires IsHex(s)
    ensures IsHex(PadStart(s, width)) && HexValue(PadStart(s, width)) == HexValue(s)
    ensures |PadStart(s, width)| == if |s| < width then width else |s|
    decreases width - |s|
  {
    if |s| < width {
      LeadingZero(s);
      PaddingKeepsValue("0" + s, width);
    }
  }

  /** The request counter is at least eight hexadecimal digits and reads back as itself. */
  lemma NonceCountRoundTrip(count: nat)
    ensures IsHex(FormatNonceCount(count)) && |FormatNonceCount(count)| >= 8
    ensures HexValue(FormatNonceCount(count)) == count
  {
    HexRoundTrip(count);
    PaddingKeepsValue(Hex(count), 8);
  }

  /** Every parameter the header carries, and no other. */
  function Credentials(c: DigestChallenge, r: DigestRequest): map<string, string> {
    map["username" := r.username, "realm" := c.realm, "nonce" := c.nonce, "uri" := r.uri,
        "algorithm" := AlgorithmName(c.algorithm), "response" := r.response]
    + (if c.qop then map["qop" := "auth", "nc" := FormatNonceCount(r.nonceCount), "cnonce" := r.cnonce] else map[])
    + (if c.opaqueValue.Some? then map["opaque" := c.opaqueValue.value] else map[])
  }

  lemma {:induction false} ParamsAppend(params: map<string, string>, a: seq<Field>, b: seq<Field>)
    ensures ParamsOf(params, a + b) == ParamsOf(ParamsOf(params, a), b)
    decreases |a|
  {
    if a == [] {
      assert a + b == b;
    } else {
      assert (a + b)[0] == a[0] && (a + b)[1..] == a[1..] + b;
      ParamsAppend(params[a[0].key := a[0].value], a[1..], b);
    }
  }

  lemma IsNameLiteral(key: string)
    requires key in {"username", "realm", "nonce", "uri", "algorithm", "response", "qop", "nc", "cnonce", "opaque"}
    ensures IsName(key)
  {
    assert forall i :: 0 <= i < |key| ==> 'a' <= key[i] <= 'z';
    assert Lower(key) == key;
  }

  lemma ParamStep(params: map<string, string>, fields: seq<Field>, i: nat)
    requires i < |fields|
    ensures ParamsOf(params, fields[i..]) == ParamsOf(params[fields[i].key := fields[i].value], fields[i + 1..])
  {
    assert fields[i..][1..] == fields[i + 1..];
  }

  lemma IdentityParams(c: DigestChallenge, r: DigestRequest)
    ensures ParamsOf(map[], IdentityFields(c, r))
         == map["username" := r.username, "realm" := c.realm, "nonce" := c.nonce, "uri" := r.uri,
                "algorithm" := AlgorithmName(c.algorithm), "response" := r.response]
  {
    var f := IdentityFields(c, r);
    assert f[0..] == f && f[6..] == [];
    var p1 := map["username" := r.username];
    assert map[][f[0].key := f[0].value] == p1;
    ParamStep(map[], f, 0);
    ParamStep(p1, f, 1);
    var p2 := p1["realm" := c.realm];
    ParamStep(p2, f, 2);
    var p3 := p2["nonce" := c.nonce];
    ParamStep(p3, f, 3);
    var p4 := p3["uri" := r.uri];
    ParamStep(p4, f, 4);
    var p5 := p4["algorithm" := AlgorithmName(c.algorithm)];
    ParamStep(p5, f, 5);
  }

  lemma QopParams(params: map<string, string>, c: DigestChallenge, r: DigestRequest)
    ensures ParamsOf(params, QopFields(c, r))
         == params + (if c.qop then map["qop" := "auth", "nc" := FormatNonceCount(r.nonceCount), "cnonce" := r.cnonce]
                      else map[])
  {
    var f := QopFields(c, r);
    if c.qop {
      assert f[0..] == f && f[3..] == [];
      ParamStep(params, f, 0);
      var p1 := params["qop" := "auth"];
      ParamStep(p1, f, 1);
      var p2 := p1["nc" := FormatNonceCount(r.nonceCount)];
      ParamStep(p2, f, 2);
    }
  }

  lemma FieldsReadable(c: DigestChallenge, r: DigestRequest)
    requires IsPlain(r.response) && (c.qop ==> IsPlain(r.cnonce))
    ensures forall i :: 0 <= i < |Fields(c, r)| ==> Readable(Fields(c, r)[i])
  {
    NonceCountRoundTrip(r.nonceCount);
    hide FormatNonceCount, HexValue;
    forall i | 0 <= i < |Fields(c, r)| ensures Readable(Fields(c, r)[i]) {
      var f := Fields(c, r)[i];
      IsNameLiteral(f.key);
      hide IsName;
      assert f.Bare? ==> f.value in {AlgorithmName(c.algorithm), "auth", FormatNonceCount(r.nonceCount)};
    }
  }

  /**
   Parsing the printed header recovers every field exactly and nothing else, for any user name,
   realm, nonce, target and opaque value: quotes, backslashes, commas and blanks included. The
   response is a hexadecimal hash; the client nonce is printed, for a challenge with `qop`, unescaped.
   */
  lemma HeaderRoundTrip(c: DigestChallenge, r: DigestRequest)
    requires IsPlain(r.response) && (c.qop ==> IsPlain(r.cnonce))
    ensures ParseDigestAuthorization(DigestAuthorization(c, r)) == Credentials(c, r)
  {
    hide Readable, IsPlain, Pass, Tokenize, ParamsOf, Credentials;
    var fields := Fields(c, r);
    FieldsReadable(c, r);
    JoinStarts(c, r);
    TokenizeScheme(Join(fields));
    TokenizeFields("", fields, map[]);
    assert "" + Join(fields) == Join(fields);
    FieldsAreCredentials(c, r);
    assert Lower("Digest") == "digest";
  }

  lemma JoinStarts(c: DigestChallenge, r: DigestRequest)
    ensures Join(Fields(c, r)) != "" && Join(Fields(c, r))[0] == 'u'
  {
    var fields := Fields(c, r);
    assert Print(fields[0])[0] == 'u';
  }

  lemma FieldsAreCredentials(c: DigestChallenge, r: DigestRequest)
    ensures ParamsOf(map[], Fields(c, r)) == Credentials(c, r)
  {
    ParamsAppend(map[], IdentityFields(c, r) + QopFields(c, r), OpaqueFields(c));
    ParamsAppend(map[], IdentityFields(c, r), QopFields(c, r));
    IdentityParams(c, r);
    var params := ParamsOf(map[], IdentityFields(c, r));
    QopParams(params, c, r);
  }

  // ---------------------------------------------------------------- what is printed

  /** Texts with a comma and a blank between them. */
  function Separated(texts: seq<string>): string {
    if texts == [] then ""
    else
      var n := |texts| - 1;
      (if n == 0 then "" else Separated(texts[..n]) + ", ") + texts[n]
  }

  lemma {:induction false} SeparatedFromFront(texts: seq<string>)
    requires |texts| >= 2
    ensures Separated(texts) == texts[0] + ", " + Separated(texts[1..])
  {
    var n := |texts| - 1;
    if n == 1 {
      assert texts[..1] == [texts[0]] && texts[1..] == [texts[1]];
    } else {
      SeparatedFromFront(texts[..n]);
      assert texts[..n][1..] == texts[1..][..n - 1];
      assert texts[0] + ", " + Separated(texts[..n][1..]) + ", " + texts[n]
          == texts[0] + ", " + (Separated(texts[1..][..n - 1]) + ", " + texts[n]);
    }
  }

  predicate PrintsAs(fields: seq<Field>, texts: seq<string>) {
    |fields| == |texts| && forall i :: 0 <= i < |fields| ==> Print(fields[i]) == texts[i]
  }

  lemma PrintsAppend(a: seq<Field>, b: seq<Field>, x: seq<string>, y: seq<string>)
    requires PrintsAs(a, x) && PrintsAs(b, y)
    ensures PrintsAs(a + b, x + y)
  {
    hide Print;
  }

  lemma {:induction false} JoinIsSeparated(fields: seq<Field>, texts: seq<string>)
    requires PrintsAs(fields, texts)
    ensures Join(fields) == Separated(texts)
    decreases |fields|
  {
    hide Print;
    if |fields| >= 2 {
      JoinIsSeparated(fields[1..], texts[1..]);
      SeparatedFromFront(texts);
    }
  }

  /** The parameters of a header whose values have no quote and no backslash, as they are sent. */
  function SentTexts(c: DigestChallenge, r: DigestRequest): seq<string> {
    SentIdentity(c, r) + SentCounter(c, r) + SentOpaque(c)
  }

  function SentIdentity(c: DigestChallenge, r: DigestRequest): seq<string> {
    [
      "username=\"" + r.username + "\"", "realm=\"" + c.realm + "\"", "nonce=\"" + c.nonce + "\"",
      "uri=\"" + r.uri + "\"", "algorithm=" + AlgorithmName(c.algorithm), "response=\"" + r.response + "\""
    ]
  }

  function SentCounter(c: DigestChallenge, r: DigestRequest): seq<string> {
    if c.qop then ["qop=auth", "nc=" + FormatNonceCount(r.nonceCount), "cnonce=\"" + r.cnonce + "\""] else []
  }

  function SentOpaque(c: DigestChallenge): seq<string> {
    if c.opaqueValue.Some? then ["opaque=\"" + c.opaqueValue.value + "\""] else []
  }

  lemma QuotedPrints(key: string, head: string, value: string)
    requires head == key + "=\""
    ensures Quote(value) == value ==> Print(Escaped(key, value)) == head + value + "\""
    ensures Print(Raw(key, value)) == head + value + "\""
  {
    hide Quote;
  }

  lemma BarePrints(key: string, head: string, value: string)
    requires head == key + "="
    ensures Print(Bare(key, value)) == head + value
  {
  }

  lemma IdentitySent(c: DigestChallenge, r: DigestRequest)
    requires Quote(r.username) == r.username && Quote(c.realm) == c.realm
    requires Quote(c.nonce) == c.nonce && Quote(r.uri) == r.uri
    ensures PrintsAs(IdentityFields(c, r), SentIdentity(c, r))
  {
    hide Quote, AlgorithmName, Print;
    QuotedPrints("username", "username=\"", r.username);
    QuotedPrints("realm", "realm=\"", c.realm);
    QuotedPrints("nonce", "nonce=\"", c.nonce);
    QuotedPrints("uri", "uri=\"", r.uri);
    BarePrints("algorithm", "algorithm=", AlgorithmName(c.algorithm));
    QuotedPrints("response", "response=\"", r.response);
  }

  lemma CounterSent(c: DigestChallenge, r: DigestRequest)
    ensures PrintsAs(QopFields(c, r), SentCounter(c, r))
  {
    hide FormatNonceCount, Print;
    BarePrints("qop", "qop=", "auth");
    assert "qop=" + "auth" == "qop=auth";
    BarePrints("nc", "nc=", FormatNonceCount(r.nonceCount));
    QuotedPrints("cnonce", "cnonce=\"", r.cnonce);
  }

  lemma OpaqueSent(c: DigestChallenge)
    requires c.opaqueValue.Some? ==> Quote(c.opaqueValue.value) == c.opaqueValue.value
    ensures PrintsAs(OpaqueFields(c), SentOpaque(c))
  {
    hide Quote;
  }

  /**
   The header as it is sent: the parameters in this order, these in quotes and those not (section 3.4
   of RFC 7616), the counter and the client nonce only where the challenge asks for them, the opaque
   value only where it gave one.
   */
  lemma HeaderPrinted(c: DigestChallenge, r: DigestRequest)
    requires IsPlain(r.username) && IsPlain(c.realm) && IsPlain(c.nonce) && IsPlain(r.uri)
    requires c.opaqueValue.Some? ==> IsPlain(c.opaqueValue.value)
    ensures DigestAuthorization(c, r) == "Digest " + Separated(SentTexts(c, r))
  {
    PlainNeedsNoQuote(r.username);
    PlainNeedsNoQuote(c.realm);
    PlainNeedsNoQuote(c.nonce);
    PlainNeedsNoQuote(r.uri);
    if c.opaqueValue.Some? {
      PlainNeedsNoQuote(c.opaqueValue.value);
    }
    hide IsPlain, Quote, Join, Separated, PrintsAs, IdentityFields, QopFields, OpaqueFields, SentIdentity, SentCounter,
      SentOpaque;
    IdentitySent(c, r);
    CounterSent(c, r);
    OpaqueSent(c);
    PrintsAppend(IdentityFields(c, r), QopFields(c, r), SentIdentity(c, r), SentCounter(c, r));
    PrintsAppend(IdentityFields(c, r) + QopFields(c, r), OpaqueFields(c), SentIdentity(c, r) + SentCounter(c, r),
                 SentOpaque(c));
    JoinIsSeparated(Fields(c, r), SentTexts(c, r));
  }

  /** The algorithms by their names. */
  lemma AlgorithmNames()
    ensures AlgorithmName(MD5) == "MD5" && AlgorithmName(MD5Sess) == "MD5-sess"
    ensures AlgorithmName(SHA256) == "SHA-256" && AlgorithmName(SHA256Sess) == "SHA-256-sess"
  {
  }
}
