/** String operations, on ASCII text. */
module Text {

  function LowerChar(c: char): char {
    if 'A' <= c <= 'Z' then (c as int + 32) as char else c
  }

  function Lower(s: string): (r: string)
    ensures |r| == |s| && forall i :: 0 <= i < |s| ==> r[i] == LowerChar(s[i])
  {
    seq(|s|, i requires 0 <= i < |s| => LowerChar(s[i]))
  }

  predicate IsSpace(c: char) {
    c == ' ' || '\t' <= c <= '\r' || ('\U{1c}' <= c && c <= '\U{1f}')
  }

  predicate Digits(s: string) {
    forall c <- s :: '0' <= c <= '9'
  }

  function StripLeft(s: string): string {
    if s != "" && IsSpace(s[0]) then StripLeft(s[1..]) else s
  }

  function StripRight(s: string): string {
    if s != "" && IsSpace(s[|s| - 1]) then StripRight(s[..|s| - 1]) else s
  }

  function Strip(s: string): string {
    StripRight(StripLeft(s))
  }

  /** Drops spaces, underscores and dashes. */
  function Squeeze(s: string): string {
    if s == "" then ""
    else if IsSpace(s[0]) || s[0] == '_' || s[0] == '-' then Squeeze(s[1..])
    else [s[0]] + Squeeze(s[1..])
  }

  /** `_key`: the comparison form of a label. */
  function Key(s: string): string {
    Squeeze(Lower(Strip(s)))
  }

  predicate FoundAt(text: string, word: string, i: int) {
    0 <= i <= |text| - |word| && text[i..i + |word|] == word
  }

  ghost predicate Letters(s: string) {
    s != "" && forall i :: 0 <= i < |s| ==> 'a' <= s[i] <= 'z'
  }

  lemma {:induction false} SqueezeConcat(a: string, b: string)
    ensures Squeeze(a + b) == Squeeze(a) + Squeeze(b)
  {
    if a == "" {
      assert a + b == b;
    } else {
      assert (a + b)[1..] == a[1..] + b;
      SqueezeConcat(a[1..], b);
    }
  }

  lemma SqueezeLetters(s: string)
    requires forall i :: 0 <= i < |s| ==> 'a' <= s[i] <= 'z'
    ensures Squeeze(s) == s
  {
  }

  lemma {:induction false} StripTrimmed(s: string)
    requires s != "" && !IsSpace(s[0]) && !IsSpace(s[|s| - 1])
    ensures Strip(s) == s
  {
  }

  lemma {:induction false} KeyOfWord(a: string)
    requires Letters(a)
    ensures Key(a) == a && Strip(a) == a && Lower(a) == a
  {
    StripTrimmed(a);
    assert Lower(a) == a;
    SqueezeLetters(a);
  }

  lemma {:induction false} LowerUnchanged(s: string)
    requires forall i :: 0 <= i < |s| ==> !('A' <= s[i] <= 'Z')
    ensures Lower(s) == s
  {
  }

  lemma {:induction false} SqueezeTwoWords(a: string, b: string)
    requires Letters(a) && Letters(b)
    ensures Squeeze(a + "_" + b) == a + b
  {
    SqueezeConcat(a + "_", b);
    SqueezeConcat(a, "_");
    SqueezeLetters(a);
    SqueezeLetters(b);
    assert Squeeze("_") == "";
    assert a + "" == a;
  }

  lemma {:induction false} KeyOfTwoWords(a: string, b: string)
    requires Letters(a) && Letters(b)
    ensures var s := a + "_" + b; Key(s) == a + b && Strip(s) == s && Lower(s) == s
  {
    var s := a + "_" + b;
    assert s[0] == a[0] && s[|s| - 1] == b[|b| - 1];
    StripTrimmed(s);
    LowerUnchanged(s);
    SqueezeTwoWords(a, b);
  }

  ghost predicate Contains(text: string, word: string) {
    exists i :: FoundAt(text, word, i)
  }

  function Join(parts: seq<string>): string {
    if parts == [] then ""
    else if |parts| == 1 then parts[0]
    else parts[0] + " " + Join(parts[1..])
  }

  method Find(text: string, word: string) returns (found: bool)
    ensures found <==> Contains(text, word)
  {
    if |text| < |word| {
      return false;
    }
    for i := 0 to |text| - |word| + 1
      invariant forall k :: 0 <= k < i ==> !FoundAt(text, word, k)
    {
      if FoundAt(text, word, i) {
        return true;
      }
    }
    return false;
  }

  lemma LowerConcat(a: string, b: string)
    ensures Lower(a + b) == Lower(a) + Lower(b)
  {
  }

  lemma FoundChars(text: string, word: string, i: int)
    requires FoundAt(text, word, i)
    ensures forall k :: 0 <= k < |word| ==> text[i + k] == word[k]
  {
    forall k | 0 <= k < |word|
      ensures text[i + k] == word[k]
    {
      assert text[i..i + |word|][k] == word[k];
    }
  }

  lemma CharsFound(text: string, word: string, i: int)
    requires 0 <= i <= |text| - |word|
    requires forall k :: 0 <= k < |word| ==> text[i + k] == word[k]
    ensures FoundAt(text, word, i)
  {
  }

  /** A word without spaces cannot straddle the separator. */
  lemma {:induction false} ContainsAcrossSpace(a: string, b: string, word: string)
    requires word != "" && ' ' !in word
    ensures Contains(a + " " + b, word) <==> Contains(a, word) || Contains(b, word)
  {
    var text := a + " " + b;
    if i :| FoundAt(text, word, i) {
      FoundChars(text, word, i);
      assert text[|a|] == ' ';
      assert !(i <= |a| < i + |word|);
      if i + |word| <= |a| {
        CharsFound(a, word, i);
      } else {
        CharsFound(b, word, i - |a| - 1);
      }
    }
    if i :| FoundAt(a, word, i) {
      FoundChars(a, word, i);
      CharsFound(text, word, i);
    }
    if i :| FoundAt(b, word, i) {
      FoundChars(b, word, i);
      CharsFound(text, word, i + |a| + 1);
    }
  }

  /** The joined lower-case text contains a word iff one of its parts does. */
  lemma {:induction false} ContainsInJoin(parts: seq<string>, word: string)
    requires word != "" && ' ' !in word
    ensures Contains(Lower(Join(parts)), word) <==> exists p <- parts :: Contains(Lower(p), word)
  {
    if |parts| > 1 {
      var rest := parts[1..];
      ContainsInJoin(rest, word);
      LowerConcat(parts[0] + " ", Join(rest));
      LowerConcat(parts[0], " ");
      assert Lower(" ") == " ";
      ContainsAcrossSpace(Lower(parts[0]), Lower(Join(rest)), word);
      assert parts == [parts[0]] + rest;
    } else if |parts| == 1 {
      assert parts[0] in parts;
    }
  }

  lemma {:induction false} ContainsItsChars(text: string, word: string, c: char)
    requires Contains(text, word) && c in word
    ensures c in text
  {
    var i :| FoundAt(text, word, i);
    FoundChars(text, word, i);
    var k :| 0 <= k < |word| && word[k] == c;
    assert text[i + k] == c;
  }

  lemma {:induction false} LacksChar(text: string, word: string, k: nat)
    requires k < |word| && word[k] !in text
    ensures !Contains(text, word)
  {
    if Contains(text, word) {
      ContainsItsChars(text, word, word[k]);
    }
  }

  // What the basic operations do to a text.

  /** White space, underscores and dashes are dropped, all other characters stay; `SqueezeConcat` lifts it to texts. */
  lemma {:induction false} SqueezeChar(c: char)
    ensures Squeeze([c]) == if IsSpace(c) || c == '_' || c == '-' then "" else [c]
    ensures IsSpace(' ') && IsSpace('\t') && IsSpace('\n') && IsSpace('\r')
    ensures forall d :: ('!' <= d <= '~') ==> !IsSpace(d)
  {
    assert Squeeze("") == "";
    assert [c][1..] == "";
  }

  ghost predicate AllSpace(s: string) {
    forall c <- s :: IsSpace(c)
  }

  lemma {:induction false} StripLeftCuts(s: string)
    ensures |StripLeft(s)| <= |s| && StripLeft(s) == s[|s| - |StripLeft(s)|..]
    ensures AllSpace(s[..|s| - |StripLeft(s)|])
    ensures StripLeft(s) != "" ==> !IsSpace(StripLeft(s)[0])
  {
    if s != "" && IsSpace(s[0]) {
      StripLeftCuts(s[1..]);
      var n := |s| - |StripLeft(s)|;
      assert s[..n] == [s[0]] + s[1..][..n - 1];
      assert s[n..] == s[1..][n - 1..];
    }
  }

  lemma {:induction false} StripRightCuts(s: string)
    ensures |StripRight(s)| <= |s| && StripRight(s) == s[..|StripRight(s)|]
    ensures AllSpace(s[|StripRight(s)|..])
    ensures StripRight(s) != "" ==> !IsSpace(StripRight(s)[|StripRight(s)| - 1])
  {
    if s != "" && IsSpace(s[|s| - 1]) {
      StripRightCuts(s[..|s| - 1]);
      var n := |StripRight(s)|;
      assert s[n..] == s[..|s| - 1][n..] + [s[|s| - 1]];
      assert s[..n] == s[..|s| - 1][..n];
    }
  }

  /** Stripping cuts white space off both ends and nothing else. */
  lemma {:induction false} StripCuts(s: string)
    ensures exists before, after :: s == before + Strip(s) + after && AllSpace(before) && AllSpace(after)
    ensures Strip(s) != "" ==> !IsSpace(Strip(s)[0]) && !IsSpace(Strip(s)[|Strip(s)| - 1])
  {
    StripLeftCuts(s);
    var t := StripLeft(s);
    StripRightCuts(t);
    var before, after := s[..|s| - |t|], t[|Strip(s)|..];
    assert s == before + t && t == Strip(s) + after;
    assert s == before + Strip(s) + after;
  }

  /** Capitals become small letters, every other character stays. */
  lemma {:induction false} LowerCases(s: string, i: nat)
    requires i < |s|
    ensures 'A' <= s[i] <= 'Z' ==> Lower(s)[i] as int - 'a' as int == s[i] as int - 'A' as int
    ensures !('A' <= s[i] <= 'Z') ==> Lower(s)[i] == s[i]
  {
  }
}
