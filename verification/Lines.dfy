/** Splitting text into lines and putting it back together. */
module Lines {

  // --- sequences ---

  lemma NoMore<T>(s: seq<T>)
    ensures s + [] == s
  {
  }

  lemma InitLast<T>(s: seq<T>)
    requires s != []
    ensures s[..|s| - 1] + [s[|s| - 1]] == s
  {
  }

  lemma Regroup<T>(a: seq<T>, b: seq<T>, c: seq<T>)
    ensures a + b + c == a + (b + c)
  {
  }

  // --- text ---

  /** The first place of a character. */
  function IndexOf(s: string, c: char): (i: nat)
    requires c in s
    ensures i < |s| && s[i] == c && c !in s[..i]
  {
    if s[0] == c then 0 else 1 + IndexOf(s[1..], c)
  }

  /** `text.split(separator)`: the maximal separator-free pieces, in order. */
  function Split(text: string, separator: char): (pieces: seq<string>)
    ensures |pieces| >= 1
    ensures forall p :: p in pieces ==> separator !in p
  {
    if text == "" then [""]
    else
      var pieces, c := Split(text[..|text| - 1], separator), text[|text| - 1];
      if c == separator then pieces + [""] else WithLast(pieces, c)
  }

  /** The last piece grows by one character. */
  function WithLast(pieces: seq<string>, c: char): seq<string>
    requires pieces != []
  {
    pieces[..|pieces| - 1] + [pieces[|pieces| - 1] + [c]]
  }

  /** `pieces.join(glue)`. */
  function Join(pieces: seq<string>, glue: string): string {
    if pieces == [] then ""
    else if |pieces| == 1 then pieces[0]
    else Join(pieces[..|pieces| - 1], glue) + glue + pieces[|pieces| - 1]
  }

  lemma JoinAppend(pieces: seq<string>, last: string, glue: string)
    requires pieces != []
    ensures Join(pieces + [last], glue) == Join(pieces, glue) + glue + last
  {
    assert (pieces + [last])[..|pieces|] == pieces;
  }

  /** The last piece is the end of the text. */
  lemma JoinWithLast(pieces: seq<string>, c: char, glue: string)
    requires pieces != []
    ensures Join(WithLast(pieces, c), glue) == Join(pieces, glue) + [c]
  {
    var n := |pieces| - 1;
    if n > 0 {
      JoinAppend(pieces[..n], pieces[n], glue);
      JoinAppend(pieces[..n], pieces[n] + [c], glue);
      assert pieces[..n] + [pieces[n]] == pieces;
    }
  }

  /** The pieces spell the text. */
  lemma {:induction false} JoinSplit(text: string, separator: char)
    ensures Join(Split(text, separator), [separator]) == text
  {
    if text != "" {
      var before, c := text[..|text| - 1], text[|text| - 1];
      var pieces := Split(before, separator);
      JoinSplit(before, separator);
      InitLast(text);
      if c == separator {
        JoinAppend(pieces, "", [separator]);
        NoMore(before + [separator]);
      } else {
        JoinWithLast(pieces, c, [separator]);
      }
    }
  }

  /** Splitting recovers any pieces free of the separator. */
  lemma {:induction false} SplitJoin(pieces: seq<string>, separator: char)
    requires |pieces| >= 1
    requires forall p :: p in pieces ==> separator !in p
    ensures Split(Join(pieces, [separator]), separator) == pieces
    decreases |pieces|, |pieces[|pieces| - 1]|
  {
    var n := |pieces| - 1;
    var last, text := pieces[n], Join(pieces, [separator]);
    if last != "" {
      var c := last[|last| - 1];
      var shorter := pieces[..n] + [last[..|last| - 1]];
      assert last[..|last| - 1] + [c] == last && last in pieces;
      assert WithLast(shorter, c) == pieces;
      SplitJoin(shorter, separator);
      JoinWithLast(shorter, c, [separator]);
      assert text[..|text| - 1] == Join(shorter, [separator]);
    } else if n > 0 {
      SplitJoin(pieces[..n], separator);
      JoinAppend(pieces[..n], "", [separator]);
      assert pieces[..n] + [""] == pieces;
      assert text == Join(pieces[..n], [separator]) + [separator];
      assert text[..|text| - 1] == Join(pieces[..n], [separator]);
    }
  }

  /** `text.replace(/\r\n?/g, "\n")`: a CR becomes a LF, and a LF right after a CR goes with it. */
  function NormalizeNewlines(text: string): (plain: string)
    ensures '\r' !in plain
  {
    if text == "" then ""
    else
      var before, c := NormalizeNewlines(text[..|text| - 1]), text[|text| - 1];
      if c == '\n' && EndsWith(text[..|text| - 1], '\r') then before else before + [if c == '\r' then '\n' else c]
  }

  predicate EndsWith(text: string, c: char) {
    text != "" && text[|text| - 1] == c
  }

  /** One more character: a LF that completes a CRLF adds nothing. */
  lemma NormalizeAppend(text: string, c: char)
    ensures NormalizeNewlines(text + [c]) ==
      if EndsWith(text, '\r') && c == '\n' then NormalizeNewlines(text)
      else NormalizeNewlines(text) + [if c == '\r' then '\n' else c]
  {
    assert (text + [c])[..|text|] == text;
  }

  /** Text without CR is left alone. */
  lemma {:induction false} NormalizeFixesPlain(text: string)
    requires '\r' !in text
    ensures NormalizeNewlines(text) == text
  {
    if text != "" {
      var n := |text| - 1;
      NormalizeFixesPlain(text[..n]);
      assert text[..n] + [text[n]] == text && text[n] in text;
      assert n > 0 ==> text[n - 1] in text;
    }
  }

  /** Splitting one more character. */
  lemma SplitAppend(text: string, c: char, separator: char)
    ensures Split(text + [c], separator) ==
      if c == separator then Split(text, separator) + [""] else WithLast(Split(text, separator), c)
  {
    assert (text + [c])[..|text|] == text;
  }

  lemma {:induction false} JoinConcat(a: seq<string>, b: seq<string>, glue: string)
    requires a != [] && b != []
    ensures Join(a + b, glue) == Join(a, glue) + glue + Join(b, glue)
  {
    var n := |b| - 1;
    InitLast(b);
    if n == 0 {
      JoinAppend(a, b[0], glue);
      assert [] + [b[0]] == [b[0]];
    } else {
      var front, last := b[..n], b[n];
      JoinConcat(a, front, glue);
      JoinAppend(a + front, last, glue);
      Regroup(a, front, [last]);
      Reglue(Join(a, glue), glue, Join(front, glue), last);
    }
  }

  lemma Reglue(x: string, glue: string, y: string, z: string)
    ensures x + glue + y + glue + z == x + glue + (y + glue + z)
  {
  }

  /** `filter(Boolean)`. */
  function NonEmpty(lines: seq<string>): seq<string> {
    if lines == [] then []
    else
      var n := |lines| - 1;
      if lines[n] == "" then NonEmpty(lines[..n]) else NonEmpty(lines[..n]) + [lines[n]]
  }

  lemma {:induction false} NoneIsEmpty(lines: seq<string>)
    requires "" !in lines
    ensures NonEmpty(lines) == lines
  {
    if lines != [] {
      NoneIsEmpty(lines[..|lines| - 1]);
      InitLast(lines);
    }
  }
}
