/** Two worked inputs for the string passes of `SanitizePipe`: a body value
    with a CRLF line break and a header value carrying an injected `Bcc:`
    line. Each literal is taken apart into pieces that the general lemmas of
    module `Sanitize` handle one at a time. */
module SanitizeExamples {
  import opened Sanitize
  import Text

  /** `NormalizeCrlfAppend` with the two halves' results named, so that a
      literal argument is not unfolded by the solver. */
  lemma CrlfPieces(a: string, b: string, u: string, v: string)
    requires a == [] || a[|a| - 1] != '\r'
    requires NormalizeCrlf(a) == u && NormalizeCrlf(b) == v
    ensures NormalizeCrlf(a + b) == u + v
  {
    NormalizeCrlfAppend(a, b);
  }

  /** `CollapseHeaderBreaksAppend` in the same form. */
  lemma BreakPieces(a: string, b: string, u: string, v: string)
    requires a == [] || !IsHeaderBreak(a[|a| - 1])
    requires CollapseHeaderBreaks(a) == u && CollapseHeaderBreaks(b) == v
    ensures CollapseHeaderBreaks(a + b) == u + v
  {
    CollapseHeaderBreaksAppend(a, b);
  }

  /** A run of breaks in front of a break-free remainder, in the same form. */
  lemma RunPieces(run: string, t: string)
    requires run != []
    requires forall i :: 0 <= i < |run| ==> IsHeaderBreak(run[i])
    requires t != [] && NoHeaderBreak(t)
    ensures CollapseHeaderBreaks(run + t) == [' '] + t
  {
    CollapseHeaderBreaksRun(run, t);
    CollapseHeaderBreaksIdentity(t);
  }

  // ---------------------------------------------------------------------
  // Body value "line1\r\nline2"

  lemma BodyStrip()
    ensures StripControl("line1\r\nline2") == "line1\r\nline2"
  {
    StripControlIdentity("line1\r\nline2");
  }

  lemma BodyTail()
    ensures NormalizeCrlf("\r\n" + "line2") == "\n" + "line2"
  {
    var t := "\r\n" + "line2";
    assert t[0] == '\r' && t[1] == '\n' && t[2..] == "line2";
    NoCarriageReturnKept("line2");
  }

  lemma BodyJoin()
    ensures NormalizeCrlf("line1" + ("\r\n" + "line2")) == "line1" + ("\n" + "line2")
  {
    NoCarriageReturnKept("line1");
    BodyTail();
    CrlfPieces("line1", "\r\n" + "line2", "line1", "\n" + "line2");
  }

  lemma BodySplit()
    ensures "line1\r\nline2" == "line1" + ("\r\n" + "line2")
    ensures "line1" + ("\n" + "line2") == "line1\nline2"
  {
  }

  /** A body field keeps its line break, with CRLF turned into LF. */
  lemma BodyExample()
    ensures NormalizeCrlf(StripControl("line1\r\nline2")) == "line1\nline2"
  {
    BodyStrip();
    BodySplit();
    BodyJoin();
  }

  // ---------------------------------------------------------------------
  // Header value "a\r\nBcc: x\n\ny"

  lemma HeaderSplit()
    ensures "a\r\nBcc: x\n\ny" == "a" + ("\r\nBcc: x" + "\n\ny")
    ensures "a" + (" Bcc: x" + " y") == "a Bcc: x y"
  {
  }

  lemma HeaderMiddle()
    ensures CollapseHeaderBreaks("\r\nBcc: x") == " Bcc: x"
  {
    assert "\r\nBcc: x" == "\r\n" + "Bcc: x";
    assert " Bcc: x" == [' '] + "Bcc: x";
    RunPieces("\r\n", "Bcc: x");
  }

  lemma HeaderLast()
    ensures CollapseHeaderBreaks("\n\ny") == " y"
  {
    assert "\n\ny" == "\n\n" + "y";
    assert " y" == [' '] + "y";
    RunPieces("\n\n", "y");
  }

  lemma HeaderRest()
    ensures CollapseHeaderBreaks("\r\nBcc: x" + "\n\ny") == " Bcc: x" + " y"
  {
    HeaderMiddle();
    HeaderLast();
    BreakPieces("\r\nBcc: x", "\n\ny", " Bcc: x", " y");
  }

  lemma HeaderFirst()
    ensures CollapseHeaderBreaks("a") == "a"
  {
    CollapseHeaderBreaksIdentity("a");
  }

  lemma HeaderBreaks()
    ensures CollapseHeaderBreaks("a\r\nBcc: x\n\ny") == "a Bcc: x y"
  {
    HeaderFirst();
    HeaderRest();
    BreakPieces("a", "\r\nBcc: x" + "\n\ny", "a", " Bcc: x" + " y");
    HeaderSplit();
  }

  lemma HeaderResultSafe()
    ensures HeaderSafe("a Bcc: x y")
  {
  }

  lemma HeaderValue()
    ensures HeaderClean("a\r\nBcc: x\n\ny") == "a Bcc: x y"
  {
    HeaderBreaks();
    HeaderResultSafe();
    HeaderCleanAfterBreaks("a\r\nBcc: x\n\ny", "a Bcc: x y");
  }

  lemma HeaderStrip()
    ensures StripControl("a\r\nBcc: x\n\ny") == "a\r\nBcc: x\n\ny"
  {
    StripControlIdentity("a\r\nBcc: x\n\ny");
  }

  /** "subject" is one of the default header names. */
  lemma SubjectIsHeader()
    ensures IsHeaderField(DefaultConfig, "subject")
  {
    assert DefaultHeaderFields[2] == "subject";
    assert Text.OccursAt(Text.ToLower("subject"), Text.ToLower("subject"), 0);
  }

  /** A header field cannot smuggle a second header line: with the default
      configuration and an HTML sanitizer that leaves the text alone, the
      `subject` value with an injected `Bcc:` ends up as one line. */
  lemma HeaderExample()
    ensures SanitizedString(DefaultConfig, (str, _) => str, "a\r\nBcc: x\n\ny", "subject") == "a Bcc: x y"
  {
    SubjectIsHeader();
    HeaderStrip();
    HeaderValue();
  }
}
