/**
 The client nonce is printed between quotes as it is. A caller may fix it, so it need not be
 hexadecimal: exactly when does the printed header still read back?
 */
module DigestNonce {
  import opened DigestAuth
  import opened Text
  import opened Wrappers

  // ---------------------------------------------------------------- one value

  lemma TailsDiffer(c: char, a: string, b: string)
    requires a != b
    ensures [c] + a != [c] + b
  {
    assert ([c] + a)[1..] == a && ([c] + b)[1..] == b;
  }

  lemma {:induction false} NoUnquoteLeadsWithMore(d: string, k: nat, rest: string)
    requires k >= 1
    ensures Unquote(d + [QUOTE] + rest).0 != seq(k, i => BACKSLASH) + d
    decreases |d|
  {
    var text := d + [QUOTE] + rest;
    var longer := seq(k, i => BACKSLASH) + d;
    assert longer[0] == BACKSLASH;
    if d != "" && d[0] == BACKSLASH && |d| > 1 && d[1] == BACKSLASH {
      assert text[2..] == d[2..] + [QUOTE] + rest;
      NoUnquoteLeadsWithMore(d[2..], k + 1, rest);
      assert longer[1..] == seq(k + 1, i => BACKSLASH) + d[2..];
      assert Unquote(text).0 == [BACKSLASH] + Unquote(text[2..]).0;
      assert longer == [BACKSLASH] + longer[1..];
      TailsDiffer(BACKSLASH, Unquote(text[2..]).0, longer[1..]);
    }
  }

  /** A caller's own client nonce is read back if and only if it has no quote and no backslash. */
  lemma {:induction false} RawValueReadBack(value: string, rest: string)
    ensures Unquote(value + [QUOTE] + rest).0 == value <==> IsPlain(value)
  {
    var text := value + [QUOTE] + rest;
    if value != "" {
      assert forall c :: c in value <==> c == value[0] || c in value[1..];
      assert text[1..] == value[1..] + [QUOTE] + rest;
      if value[0] == BACKSLASH {
        if |value| > 1 && value[1] == BACKSLASH {
          assert text[2..] == value[2..] + [QUOTE] + rest;
          NoUnquoteLeadsWithMore(value[2..], 1, rest);
          assert seq(1, i => BACKSLASH) + value[2..] == value[1..];
          assert Unquote(text).0[1..] == Unquote(text[2..]).0;
        }
      } else if value[0] != QUOTE {
        RawValueReadBack(value[1..], rest);
        assert Unquote(text).0[1..] == Unquote(text[1..]).0;
      }
    }
  }

  // ---------------------------------------------------------------- what can still be set

  /** Every parameter set costs an equals sign, and its value's own: quoting neither adds nor drops one. */
  function Equals(s: string): nat {
    multiset(s)['=']
  }

  lemma EqualsAppend(a: string, b: string)
    ensures Equals(a + b) == Equals(a) + Equals(b)
  {
  }

  lemma EqualsSplit(s: string, n: nat)
    requires n <= |s|
    ensures Equals(s) == Equals(s[..n]) + Equals(s[n..])
  {
    assert s[..n] + s[n..] == s;
  }

  lemma {:induction false} EqualsDropped(s: string, chars: string)
    ensures Equals(DropWhile(s, chars)) <= Equals(s)
  {
    if s != "" && s[0] in chars {
      EqualsDropped(s[1..], chars);
      EqualsSplit(s, 1);
    }
  }

  lemma {:induction false} EqualsUnquoted(s: string)
    ensures Equals(Unquote(s).0) + Equals(Unquote(s).1) <= Equals(s)
  {
    if s == "" || s[0] == QUOTE {
    } else if s[0] == BACKSLASH && |s| > 1 {
      EqualsUnquoted(s[2..]);
      EqualsSplit(s, 1);
      EqualsSplit(s[1..], 1);
      assert s[1..][..1] == [s[1]] && s[1..][1..] == s[2..];
    } else {
      EqualsUnquoted(s[1..]);
      EqualsSplit(s, 1);
      assert s[..1] == [s[0]];
    }
  }

  lemma {:induction false} EqualsQuoted(s: string)
    ensures Equals(Quote(s)) == Equals(s)
  {
    if s != "" {
      QuoteStep(s);
      EqualsQuoted(s[1..]);
      EqualsSplit(s, 1);
      assert s[..1] == [s[0]];
      EqualsAppend(EscapedChar(s[0]), Quote(s[1..]));
    }
  }

  lemma EqualsTail(s: string)
    ensures Equals(Tail(s)) <= Equals(s)
  {
    if s != "" {
      EqualsSplit(s, 1);
    }
  }

  lemma EqualsRead(v: string)
    ensures Equals(ReadValue(v).0) + Equals(ReadValue(v).1) <= Equals(v)
  {
    if v != "" && v[0] == QUOTE {
      EqualsSplit(v, 1);
      EqualsUnquoted(v[1..]);
      EqualsTail(Unquote(v[1..]).1);
    } else {
      EqualsSplit(v, PlainLength(v));
    }
  }

  /** What setting `key` on the way from one set of parameters to another takes. */
  function Cost(before: map<string, string>, after: map<string, string>, key: string): nat {
    if key in after && (key !in before || before[key] != after[key]) then 1 + Equals(after[key]) else 0
  }

  /** The first part has the same scheme, and no more was set than the equals signs spent allow. */
  predicate Spends(before: seq<Part>, after: seq<Part>, a: string, b: string, spent: int) {
    && before != [] && after != []
    && after[0].scheme == before[0].scheme
    && Cost(before[0].params, after[0].params, a) + Cost(before[0].params, after[0].params, b) <= spent
  }

  lemma SetSpends(parts: seq<Part>, key: string, value: string, a: string, b: string)
    requires parts != [] && a != b
    ensures Spends(parts, SetParam(parts, key, value), a, b, 1 + Equals(value))
  {
  }

  lemma PassSpends(s: string, parts: seq<Part>, a: string, b: string)
    requires s != "" && parts != [] && a != b
    ensures Spends(parts, Pass(s, parts).1, a, b, Equals(s) - Equals(Pass(s, parts).0))
  {
    var t := DropWhile(s, SEPARATORS);
    var n := TokenLength(t);
    EqualsDropped(s, SEPARATORS);
    EqualsTail(t);
    EqualsSplit(t, n);
    if n > 0 {
      NameSpends(t[..n], t[n..], parts, a, b);
    }
  }

  lemma NameSpends(name: string, s: string, parts: seq<Part>, a: string, b: string)
    requires parts != [] && a != b
    ensures Spends(parts, AfterName(name, s, parts).1, a, b, Equals(s) - Equals(AfterName(name, s, parts).0))
  {
    var rest := DropWhile(s, BLANKS);
    EqualsDropped(s, BLANKS);
    if rest != "" && rest[0] == '=' {
      var v := DropWhile(rest[1..], BLANKS);
      EqualsSplit(rest, 1);
      assert rest[..1] == "=";
      EqualsDropped(rest[1..], BLANKS);
      EqualsRead(v);
      SetSpends(parts, Lower(name), ReadValue(v).0, a, b);
    }
  }

  lemma SpendsOn(p: seq<Part>, q: seq<Part>, r: seq<Part>, a: string, b: string, m: int, n: int)
    requires Spends(p, q, a, b, m) && Spends(q, r, a, b, n)
    ensures Spends(p, r, a, b, m + n)
  {
  }

  /** Reading on can only set what the equals signs left in the text pay for. */
  lemma {:induction false} TokenizeSpends(s: string, parts: seq<Part>, a: string, b: string)
    requires parts != [] && a != b
    ensures Spends(parts, Tokenize(s, parts), a, b, Equals(s))
    decreases |s|
  {
    if s != "" {
      PassAdvances(s, parts);
      PassSpends(s, parts, a, b);
      var (rest, next) := Pass(s, parts);
      hide Pass, Spends;
      TokenizeSpends(rest, next, a, b);
      SpendsOn(parts, next, Tokenize(rest, next), a, b, Equals(s) - Equals(rest), Equals(rest));
    }
  }

  // ---------------------------------------------------------------- the header

  lemma {:induction false} TokenizeFront(sep: string, a: seq<Field>, b: seq<Field>, params: map<string, string>)
    requires a != [] && b != [] && forall i :: 0 <= i < |a| ==> Readable(a[i])
    requires sep == "" || sep == ", "
    ensures Tokenize(sep + Join(a + b), [Part("Digest", params)])
         == Tokenize(", " + Join(b), [Part("Digest", ParamsOf(params, a))])
    decreases |a|
  {
    var next := params[a[0].key := a[0].value];
    hide Readable, Tokenize, Join;
    TokenizeOne(sep, a + b, params);
    assert (a + b)[0] == a[0] && (a + b)[1..] == a[1..] + b;
    if |a| > 1 {
      TokenizeFront(", ", a[1..], b, next);
    } else {
      assert a[1..] == [] && [] + b == b;
    }
  }

  /** The fields printed before the client nonce. */
  function FrontFields(c: DigestChallenge, r: DigestRequest): seq<Field> {
    IdentityFields(c, r) + [Bare("qop", "auth"), Bare("nc", FormatNonceCount(r.nonceCount))]
  }

  lemma FrontReadable(c: DigestChallenge, r: DigestRequest)
    requires IsPlain(r.response)
    ensures forall i :: 0 <= i < |FrontFields(c, r)| ==> Readable(FrontFields(c, r)[i])
  {
    forall i | 0 <= i < |FrontFields(c, r)| ensures Readable(FrontFields(c, r)[i]) {
      hide IsName;
      IsNameLiteral(FrontFields(c, r)[i].key);
      NonceCountRoundTrip(r.nonceCount);
    }
  }

  function FrontParams(c: DigestChallenge, r: DigestRequest): map<string, string> {
    ParamsOf(map[], FrontFields(c, r))
  }

  /** Neither the client nonce nor the opaque value is set before the client nonce is read. */
  lemma {:induction false} KeysOf(params: map<string, string>, fields: seq<Field>, key: string)
    requires key !in params && forall i :: 0 <= i < |fields| ==> fields[i].key != key
    ensures key !in ParamsOf(params, fields)
    decreases |fields|
  {
    if fields != [] {
      KeysOf(params[fields[0].key := fields[0].value], fields[1..], key);
    }
  }

  /** What is printed after the client nonce's opening quote. */
  function More(c: DigestChallenge): string {
    if c.opaqueValue.Some? then ", opaque=\"" + Quote(c.opaqueValue.value) + "\"" else ""
  }

  lemma EqualsMore(c: DigestChallenge)
    ensures Equals(More(c)) == if c.opaqueValue.Some? then 1 + Equals(c.opaqueValue.value) else 0
  {
    if c.opaqueValue.Some? {
      var o := c.opaqueValue.value;
      EqualsQuoted(o);
      EqualsAppend(", opaque=\"" + Quote(o), "\"");
      EqualsAppend(", opaque=\"", Quote(o));
    }
  }

  /** The printed header, read up to the client nonce. */
  lemma ReadFront(c: DigestChallenge, r: DigestRequest)
    requires IsPlain(r.response) && c.qop
    ensures Tokenize(DigestAuthorization(c, r), [])
         == Tokenize(", " + ("cnonce=\"" + r.cnonce + "\"" + More(c)), [Part("Digest", FrontParams(c, r))])
  {
    var back := [Raw("cnonce", r.cnonce)] + OpaqueFields(c);
    assert Fields(c, r) == FrontFields(c, r) + back;
    FrontReadable(c, r);
    JoinStarts(c, r);
    hide Readable, Tokenize, ParamsOf, IsPlain;
    TokenizeScheme(Join(Fields(c, r)));
    TokenizeFront("", FrontFields(c, r), back, map[]);
    assert "" + Join(Fields(c, r)) == Join(Fields(c, r));
    BackPrinted(c, r);
  }

  lemma BackPrinted(c: DigestChallenge, r: DigestRequest)
    ensures Join([Raw("cnonce", r.cnonce)] + OpaqueFields(c)) == "cnonce=\"" + r.cnonce + "\"" + More(c)
  {
    var back := [Raw("cnonce", r.cnonce)] + OpaqueFields(c);
    if c.opaqueValue.Some? {
      assert back[1..] == OpaqueFields(c);
      assert Join(OpaqueFields(c)) == Print(OpaqueFields(c)[0]);
      assert More(c) == ", " + Print(OpaqueFields(c)[0]);
    }
  }

  /** The pass over the client nonce. */
  lemma PassNonce(cnonce: string, more: string, parts: seq<Part>)
    ensures var value, rest := Unquote(cnonce + [QUOTE] + more).0, Tail(Unquote(cnonce + [QUOTE] + more).1);
            Pass(", " + ("cnonce=\"" + cnonce + "\"" + more), parts) == (rest, SetParam(parts, "cnonce", value))
  {
    var text := cnonce + [QUOTE] + more;
    var v := [QUOTE] + text;
    hide Pass, SetParam, Unquote, Tail;
    IsNameLiteral("cnonce");
    PassName(", ", "cnonce", v, parts);
    assert ", " + ("cnonce=\"" + cnonce + "\"" + more) == ", " + ("cnonce" + ("=" + v));
    assert v[1..] == text;
  }

  lemma EqualsLeft(cnonce: string, more: string)
    ensures Equals(Tail(Unquote(cnonce + [QUOTE] + more).1)) <= Equals(cnonce) + Equals(more)
  {
    var text := cnonce + [QUOTE] + more;
    EqualsUnquoted(text);
    EqualsTail(Unquote(text).1);
    EqualsAppend(cnonce + [QUOTE], more);
    EqualsAppend(cnonce, [QUOTE]);
  }

  /**
   Whatever the caller's client nonce and the terminal's opaque value hold, the header reads back
   if and only if the nonce, where it is printed, has no quote and no backslash.
   */
  lemma HeaderReadsBack(c: DigestChallenge, r: DigestRequest)
    requires IsPlain(r.response)
    ensures ParseDigestAuthorization(DigestAuthorization(c, r)) == Credentials(c, r) <==> (c.qop ==> IsPlain(r.cnonce))
  {
    if c.qop ==> IsPlain(r.cnonce) {
      HeaderRoundTrip(c, r);
    } else {
      NotPlainIsLost(c, r);
    }
  }

  /** Once the nonce was misread, the text left cannot pay for both the nonce and the opaque value. */
  lemma TooDear(c: DigestChallenge, r: DigestRequest, next: map<string, string>, found: map<string, string>)
    requires c.qop && "opaque" !in next && "cnonce" in next && next["cnonce"] != r.cnonce
    requires Cost(next, found, "cnonce") + Cost(next, found, "opaque") <= Equals(r.cnonce) + Equals(More(c))
    ensures found != Credentials(c, r)
  {
    EqualsMore(c);
    hide More, Equals, FormatNonceCount;
    var all := Credentials(c, r);
    assert "cnonce" in all && all["cnonce"] == r.cnonce;
    assert c.opaqueValue.Some? ==> "opaque" in all && all["opaque"] == c.opaqueValue.value;
    hide Credentials;
    assert Cost(next, all, "cnonce") == 1 + Equals(r.cnonce);
    assert c.opaqueValue.Some? ==> Cost(next, all, "opaque") == 1 + Equals(c.opaqueValue.value);
  }

  /** What a header whose client nonce was misread goes on to set. */
  lemma ReadOn(rest: string, next: map<string, string>)
    ensures var after := Tokenize(rest, [Part("Digest", next)]);
            Cost(next, FindDigest(after), "cnonce") + Cost(next, FindDigest(after), "opaque") <= Equals(rest)
  {
    var before := [Part("Digest", next)];
    TokenizeSpends(rest, before, "cnonce", "opaque");
    hide Tokenize, Cost, Equals;
    FirstDigest(Tokenize(rest, before));
  }

  lemma FirstDigest(parts: seq<Part>)
    requires parts != [] && parts[0].scheme == "Digest"
    ensures FindDigest(parts) == parts[0].params
  {
    assert Lower("Digest") == "digest";
  }

  lemma FrontLacksOpaque(c: DigestChallenge, r: DigestRequest)
    ensures "opaque" !in FrontParams(c, r)
  {
    KeysOf(map[], FrontFields(c, r), "opaque");
  }

  /** Once the client nonce was read as `value`, `rest` is left to read. */
  predicate LeavesToRead(c: DigestChallenge, r: DigestRequest, value: string, rest: string) {
    && Equals(rest) <= Equals(r.cnonce) + Equals(More(c))
    && Tokenize(DigestAuthorization(c, r), []) == Tokenize(rest, [Part("Digest", FrontParams(c, r)["cnonce" := value])])
  }

  lemma ReadPastNonce(c: DigestChallenge, r: DigestRequest, value: string)
    requires c.qop && IsPlain(r.response) && value == Unquote(r.cnonce + [QUOTE] + More(c)).0
    ensures exists rest :: LeavesToRead(c, r, value, rest)
  {
    var start := [Part("Digest", FrontParams(c, r))];
    var text := ", " + ("cnonce=\"" + r.cnonce + "\"" + More(c));
    ReadFront(c, r);
    PassNonce(r.cnonce, More(c), start);
    EqualsLeft(r.cnonce, More(c));
    NonceSet(FrontParams(c, r), value);
    var rest := Tail(Unquote(r.cnonce + [QUOTE] + More(c)).1);
    hide Tokenize, Unquote, Equals, IsPlain, More, FrontParams, Pass, SetParam, DigestAuthorization;
    assert text[0] == ',';
    OnePassOn(text, start);
    assert LeavesToRead(c, r, value, rest);
  }

  lemma NonceSet(params: map<string, string>, value: string)
    ensures SetParam([Part("Digest", params)], "cnonce", value) == [Part("Digest", params["cnonce" := value])]
  {
  }

  lemma NotPlainIsLost(c: DigestChallenge, r: DigestRequest)
    requires c.qop && IsPlain(r.response) && !IsPlain(r.cnonce)
    ensures ParseDigestAuthorization(DigestAuthorization(c, r)) != Credentials(c, r)
  {
    var value := Unquote(r.cnonce + [QUOTE] + More(c)).0;
    var next := FrontParams(c, r)["cnonce" := value];
    RawValueReadBack(r.cnonce, More(c));
    FrontLacksOpaque(c, r);
    ReadPastNonce(c, r, value);
    hide Tokenize, Unquote, Equals, IsPlain, More, FrontParams, FindDigest, Credentials, Cost, DigestAuthorization;
    var rest :| LeavesToRead(c, r, value, rest);
    ReadOn(rest, next);
    TooDear(c, r, next, FindDigest(Tokenize(rest, [Part("Digest", next)])));
  }

  lemma OnePassOn(s: string, parts: seq<Part>)
    requires s != ""
    ensures Tokenize(s, parts) == Tokenize(Pass(s, parts).0, Pass(s, parts).1)
  {
    PassAdvances(s, parts);
  }
}
