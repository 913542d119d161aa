/** Memory documents: a header line, and a body. */
module MemoryDocument {
  import opened Lines
  import opened Outcome
  import opened Text

  /** A header is one line of canonical text. */
  predicate IsHeader(header: string) {
    Canonical(header) && '\n' !in header && '\r' !in header
  }

  function FirstLine(text: string): string {
    if '\n' in text then text[..IndexOf(text, '\n')] else text
  }

  /** `hasMemoryDocumentHeader`. */
  predicate HasHeader(header: string, text: string) {
    Trim(FirstLine(NormalizeNewlines(text))) == header
  }

  /** `readMemoryDocumentBody`. */
  function ReadBody(header: string, text: string): Result<string> {
    var normalized := NormalizeNewlines(text);
    if !HasHeader(header, text) then Rejected
    else if '\n' in normalized then Ok(Trim(normalized[IndexOf(normalized, '\n') + 1..]))
    else Ok("")
  }

  /** `renderMemoryDocument`. */
  function RenderDocument(header: string, body: string): string {
    if Trim(body) == "" then header + "\n" else header + "\n\n" + Trim(body) + "\n"
  }

  /** A block added after a blank line. */
  function Extended(before: string, block: string): string {
    if before != "" then before + "\n\n" + block else block
  }

  /** `appendMemoryDocumentBlock`. */
  function AppendBlock(header: string, existing: string, block: string): Result<string> {
    var body :- if existing != "" then ReadBody(header, existing) else Ok("");
    Ok(RenderDocument(header, Extended(body, Trim(block))))
  }

  lemma {:induction false} FirstNewline(line: string, rest: string)
    requires '\n' !in line
    ensures '\n' in line + ("\n" + rest) && IndexOf(line + ("\n" + rest), '\n') == |line|
  {
    var s := line + ("\n" + rest);
    assert s[|line|] == '\n';
    if line != "" {
      FirstNewline(line[1..], rest);
      assert s[1..] == line[1..] + ("\n" + rest) && line[0] in line;
    }
  }

  lemma HeadAndRest(line: string, rest: string)
    requires '\n' !in line
    ensures var text := line + ("\n" + rest);
            '\n' in text && FirstLine(text) == line && text[IndexOf(text, '\n') + 1..] == rest
  {
    FirstNewline(line, rest);
    var text := line + ("\n" + rest);
    assert text[..|line|] == line && text[|line| + 1..] == rest;
  }

  /** A text that starts with the header line is read as what follows it. */
  lemma BodyOf(header: string, rest: string)
    requires IsHeader(header) && '\r' !in rest
    ensures ReadBody(header, header + ("\n" + rest)) == Ok(Trim(rest))
  {
    NormalizeFixesPlain(header + ("\n" + rest));
    HeadAndRest(header, rest);
    TrimFixesTrimmed(header);
  }

  /** A rendered body is read back, trimmed. */
  lemma BodyComesBack(header: string, body: string)
    requires IsHeader(header) && '\r' !in Trim(body)
    ensures ReadBody(header, RenderDocument(header, body)) == Ok(Trim(body))
  {
    var trimmed := Trim(body);
    if trimmed == "" {
      BodyOf(header, "");
      assert header + ("\n" + "") == header + "\n";
    } else {
      var rest := "\n" + trimmed + "\n";
      BodyOf(header, rest);
      assert header + ("\n" + rest) == header + "\n\n" + trimmed + "\n";
      TrimTrims(body);
      TrimAround("\n", trimmed, "\n");
    }
  }

  /** What is read has no CR left. */
  lemma BodyIsPlain(header: string, text: string)
    requires ReadBody(header, text).Ok?
    ensures '\r' !in ReadBody(header, text).value && Trimmed(ReadBody(header, text).value)
  {
    var normalized := NormalizeNewlines(text);
    if '\n' in normalized {
      var rest := normalized[IndexOf(normalized, '\n') + 1..];
      TrimTrims(rest);
      forall c | c in Trim(rest) ensures c != '\r' {
        TrimKeeps(rest, c);
        assert c in normalized;
      }
    }
  }

  /** A body comes back exactly when it has no CR within. */
  lemma BodyComesBackIff(header: string, body: string)
    requires IsHeader(header)
    ensures ReadBody(header, RenderDocument(header, body)) == Ok(Trim(body)) <==> '\r' !in Trim(body)
  {
    if '\r' !in Trim(body) {
      BodyComesBack(header, body);
    } else if ReadBody(header, RenderDocument(header, body)).Ok? {
      BodyIsPlain(header, RenderDocument(header, body));
    }
  }

  lemma ExtendedIsTrimmed(before: string, block: string)
    requires Trimmed(before) && Canonical(block) && '\r' !in before && '\r' !in block
    ensures Trimmed(Extended(before, block)) && '\r' !in Extended(before, block)
  {
    var body := Extended(before, block);
    assert body[|body| - 1] == block[|block| - 1];
  }

  /** An appended block is read back after the body that was there, a blank line between. */
  lemma AppendedComesBack(header: string, existing: string, block: string)
    requires IsHeader(header) && Canonical(block) && '\r' !in block
    requires AppendBlock(header, existing, block).Ok?
    ensures var before := if existing != "" then ReadBody(header, existing).value else "";
            ReadBody(header, AppendBlock(header, existing, block).value) == Ok(Extended(before, block))
  {
    var before := if existing != "" then ReadBody(header, existing).value else "";
    TrimFixesTrimmed(block);
    if existing != "" {
      BodyIsPlain(header, existing);
    }
    ExtendedIsTrimmed(before, block);
    TrimFixesTrimmed(Extended(before, block));
    assert AppendBlock(header, existing, block) == Ok(RenderDocument(header, Extended(before, block)));
    BodyComesBack(header, Extended(before, block));
  }
}
