/**
 The few string operations the wire formats rely on: `trim` and its white space, and the
 lower case of ASCII names.
 */
module Text {
  /** White space and line terminators, as `String.prototype.trim` strips them. */
  predicate IsSpace(c: char) {
    || '\t' <= c <= '\r'
    || c == ' '
    || c as int in {0xA0, 0x1680, 0x2028, 0x2029, 0x202F, 0x205F, 0x3000, 0xFEFF}
    || 0x2000 <= c as int <= 0x200A
  }

  function TrimStart(s: string): string {
    if s != "" && IsSpace(s[0]) then TrimStart(s[1..]) else s
  }

  function TrimEnd(s: string): string {
    if s != "" && IsSpace(s[|s| - 1]) then TrimEnd(s[..|s| - 1]) else s
  }

  function Trim(s: string): string {
    TrimEnd(TrimStart(s))
  }

  predicate NoOuterSpace(s: string) {
    s != "" ==> !IsSpace(s[0]) && !IsSpace(s[|s| - 1])
  }

  lemma {:induction false} TrimStartShrinks(s: string)
    ensures |TrimStart(s)| <= |s|
    ensures |TrimStart(s)| == |s| ==> TrimStart(s) == s
    ensures TrimStart(s) != "" ==> !IsSpace(TrimStart(s)[0])
  {
    if s != "" && IsSpace(s[0]) {
      TrimStartShrinks(s[1..]);
    }
  }

  lemma {:induction false} TrimEndShrinks(s: string)
    ensures |TrimEnd(s)| <= |s| && TrimEnd(s) <= s
    ensures TrimEnd(s) != "" ==> !IsSpace(TrimEnd(s)[|TrimEnd(s)| - 1])
  {
    if s != "" && IsSpace(s[|s| - 1]) {
      TrimEndShrinks(s[..|s| - 1]);
    }
  }

  /** Trimming leaves exactly the strings without outer blanks alone, and only yields such. */
  lemma TrimFixpoint(s: string)
    ensures NoOuterSpace(Trim(s))
    ensures Trim(s) == s <==> NoOuterSpace(s)
  {
    TrimStartShrinks(s);
    TrimEndShrinks(TrimStart(s));
  }

  predicate AllSpaces(s: string) {
    forall i :: 0 <= i < |s| ==> IsSpace(s[i])
  }

  lemma {:induction false} TrimStartCuts(s: string)
    ensures var n := |s| - |TrimStart(s)|; n >= 0 && s[n..] == TrimStart(s) && AllSpaces(s[..n])
  {
    if s != "" && IsSpace(s[0]) {
      TrimStartCuts(s[1..]);
      var n := |s| - |TrimStart(s)|;
      assert s[n..] == s[1..][n - 1..];
      assert s[..n] == [s[0]] + s[1..][..n - 1];
    }
  }

  lemma {:induction false} TrimEndCuts(s: string)
    ensures var n := |TrimEnd(s)|; n <= |s| && s[..n] == TrimEnd(s) && AllSpaces(s[n..])
  {
    if s != "" && IsSpace(s[|s| - 1]) {
      TrimEndCuts(s[..|s| - 1]);
      var n := |TrimEnd(s)|;
      assert s[..n] == s[..|s| - 1][..n];
      assert s[n..] == s[..|s| - 1][n..] + [s[|s| - 1]];
    }
  }

  /** What is left is a stretch of the text, and only blanks are cut on either side. */
  predicate CutFrom(s: string, i: nat, j: nat, left: string) {
    i <= j <= |s| && s[i..j] == left && AllSpaces(s[..i]) && AllSpaces(s[j..])
  }

  lemma TrimCuts(s: string)
    ensures exists i: nat, j: nat :: CutFrom(s, i, j, Trim(s))
  {
    var rest := TrimStart(s);
    var i, n := |s| - |rest|, |TrimEnd(rest)|;
    TrimStartCuts(s);
    TrimEndCuts(rest);
    assert s[i..i + n] == rest[..n] && s[i + n..] == rest[n..];
    assert CutFrom(s, i, i + n, Trim(s));
  }

  /** The blanks, one by one: tabulators and line ends, spaces of all widths, the byte order mark. */
  lemma SpacesSpelled(c: char)
    ensures IsSpace(c) <==> c as int in {
                                          9, 10, 11, 12, 13, 0x20, 0xA0, 0x1680, 0x2000, 0x2001, 0x2002, 0x2003,
                                          0x2004, 0x2005, 0x2006, 0x2007,
                                          0x2008,
                                          0x2009, 0x200A, 0x2028, 0x2029, 0x202F, 0x205F, 0x3000, 0xFEFF
                                        }
  {
  }

  function LowerChar(c: char): char {
    if 'A' <= c <= 'Z' then (c as int + 32) as char else c
  }

  const UPPER := "ABCDEFGHIJKLMNOPQRSTUVWXYZ"
  const LOWER := "abcdefghijklmnopqrstuvwxyz"

  lemma LettersLowered(c: char, i: nat)
    requires i < 26
    ensures LowerChar(UPPER[i]) == LOWER[i]
    ensures !('A' <= c <= 'Z') ==> LowerChar(c) == c
  {
  }

  function Lower(s: string): string {
    seq(|s|, i requires 0 <= i < |s| => LowerChar(s[i]))
  }
}
