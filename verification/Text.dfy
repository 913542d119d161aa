/** The conventions shared by the protocols: JavaScript whitespace, canonical text, safe integers. */
module Text {

  /** `Number.MAX_SAFE_INTEGER`. */
  const MAX_SAFE_INTEGER := 0x1F_FFFF_FFFF_FFFF

  /** WhiteSpace and LineTerminator of ECMAScript, as `trim` and `\s` read them. */
  predicate IsSpace(c: char) {
    || '\t' <= c <= '\r' || c == ' ' || c == '\U{00A0}' || c == '\U{1680}'
    || '\U{2000}' <= c <= '\U{200A}' || c == '\U{2028}' || c == '\U{2029}'
    || c == '\U{202F}' || c == '\U{205F}' || c == '\U{3000}' || c == '\U{FEFF}'
  }

  function TrimStart(s: string): string {
    if s == "" || !IsSpace(s[0]) then s else TrimStart(s[1..])
  }

  function TrimEnd(s: string): string {
    if s == "" || !IsSpace(s[|s| - 1]) then s else TrimEnd(s[..|s| - 1])
  }

  /** `trim`. */
  function Trim(s: string): string {
    TrimEnd(TrimStart(s))
  }

  /** Neither end is whitespace. */
  predicate Trimmed(s: string) {
    s == "" || (!IsSpace(s[0]) && !IsSpace(s[|s| - 1]))
  }

  lemma {:induction false} TrimStartStarts(s: string)
    ensures TrimStart(s) == "" || !IsSpace(TrimStart(s)[0])
  {
    if s != "" && IsSpace(s[0]) {
      TrimStartStarts(s[1..]);
    }
  }

  lemma {:induction false} TrimEndEnds(s: string)
    ensures TrimEnd(s) <= s && (TrimEnd(s) == "" || !IsSpace(TrimEnd(s)[|TrimEnd(s)| - 1]))
  {
    if s != "" && IsSpace(s[|s| - 1]) {
      TrimEndEnds(s[..|s| - 1]);
    }
  }

  lemma TrimTrims(s: string)
    ensures Trimmed(Trim(s))
  {
    TrimStartStarts(s);
    TrimEndEnds(TrimStart(s));
  }

  lemma TrimFixesTrimmed(s: string)
    ensures Trim(s) == s <==> Trimmed(s)
  {
    TrimTrims(s);
  }

  /** Non-empty and trimmed. */
  predicate Canonical(s: string) {
    s != "" && Trimmed(s)
  }

  predicate AllSpace(s: string) {
    forall i :: 0 <= i < |s| ==> IsSpace(s[i])
  }

  lemma {:induction false} TrimStartSkips(front: string, s: string)
    requires AllSpace(front) && (s == "" || !IsSpace(s[0]))
    ensures TrimStart(front + s) == s
  {
    if front == "" {
      assert front + s == s;
    } else {
      TrimStartSkips(front[1..], s);
      assert (front + s)[1..] == front[1..] + s;
    }
  }

  lemma {:induction false} TrimEndSkips(s: string, back: string)
    requires AllSpace(back) && (s == "" || !IsSpace(s[|s| - 1]))
    ensures TrimEnd(s + back) == s
  {
    var n := |back| - 1;
    if back == "" {
      assert s + back == s;
    } else {
      TrimEndSkips(s, back[..n]);
      assert (s + back)[..|s| + n] == s + back[..n];
    }
  }

  /** Whitespace around a text is what trimming takes off. */
  lemma TrimAround(front: string, s: string, back: string)
    requires AllSpace(front) && AllSpace(back) && Trimmed(s) && s != ""
    ensures Trim(front + s + back) == s
  {
    assert front + s + back == front + (s + back);
    TrimStartSkips(front, s + back);
    TrimEndSkips(s, back);
  }

  lemma {:induction false} TrimStartIsSuffix(s: string)
    ensures |TrimStart(s)| <= |s| && TrimStart(s) == s[|s| - |TrimStart(s)|..]
  {
    if s != "" && IsSpace(s[0]) {
      TrimStartIsSuffix(s[1..]);
    }
  }

  /** Trimming adds no character. */
  lemma TrimKeeps(s: string, c: char)
    requires c in Trim(s)
    ensures c in s
  {
    TrimEndEnds(TrimStart(s));
    TrimStartIsSuffix(s);
    assert c in TrimStart(s);
  }

  /** Something that is no whitespace is left. */
  lemma {:induction false} TrimLeaves(s: string)
    requires s != "" && !IsSpace(s[0])
    ensures Trim(s) != ""
  {
    assert TrimStart(s) == s;
    TrimEndLeaves(s);
  }

  lemma {:induction false} TrimEndLeaves(s: string)
    requires s != "" && !IsSpace(s[0])
    ensures TrimEnd(s) != ""
  {
    if IsSpace(s[|s| - 1]) {
      TrimEndLeaves(s[..|s| - 1]);
    }
  }

  /** Some character is no whitespace. */
  predicate HasText(s: string) {
    exists i :: 0 <= i < |s| && !IsSpace(s[i])
  }

  lemma HasTextIff(s: string)
    ensures Trim(s) != "" <==> HasText(s)
  {
    TrimStartStarts(s);
    TrimStartIsSuffix(s);
    if TrimStart(s) != "" {
      var k := |s| - |TrimStart(s)|;
      assert s[k] == TrimStart(s)[0];
      TrimLeaves(TrimStart(s));
      TrimFixesStart(s);
    } else {
      StartOfSpaces(s);
    }
  }

  lemma {:induction false} StartOfSpaces(s: string)
    requires TrimStart(s) == ""
    ensures !HasText(s)
  {
    if s != "" {
      StartOfSpaces(s[1..]);
      assert forall i :: 0 < i < |s| ==> s[i] == s[1..][i - 1];
    }
  }

  lemma TrimFixesStart(s: string)
    requires TrimStart(s) != ""
    ensures TrimStart(TrimStart(s)) == TrimStart(s)
  {
    TrimStartStarts(s);
  }
}
