/**
  The names the two scripts are written for, worked through both
  `format_title` functions. Each example goes in small steps (the match,
  the number, the words) so that every step is a short computation.
 */
module Examples {
  import opened Wrappers
  import opened PyStr
  import opened TitlePattern
  import Notes
  import Renamer

  // ---------------------------------------------------------------------------
  // rename.py
  // ---------------------------------------------------------------------------

  lemma IntroMatch()
    ensures Match("02_intro-to-topic") == Some(Groups("02", "intro-to-topic"))
  {
    var s := "02_intro-to-topic";
    assert s[..2] == "02" && s[3..|s|] == "intro-to-topic";
    MatchAt(s, 2, |s|);
  }

  lemma IntroWords()
    ensures Title(ReplaceChar("intro-to-topic", '-', ' ')) == "Intro To Topic"
  {
    var t := "intro to topic";
    assert ReplaceChar("intro-to-topic", '-', ' ') == t;
  }

  /** `str(int("02"))` drops the leading zero. */
  lemma IntroNumber()
    ensures Decimal(DecimalValue("02")) == "2"
  {
    NumberDropsLeadingZeros("02");
  }

  lemma IntroNumbered()
    ensures NumberedTitle(Groups("02", "intro-to-topic")) == "2. Intro To Topic"
  {
    IntroNumber();
    IntroWords();
  }

  /** The number loses its leading zero, the slug its hyphens, and every word is capitalised. */
  lemma RenameIntroExample()
    ensures Renamer.FormatTitle("02_intro-to-topic") == "2. Intro To Topic"
  {
    IntroMatch();
    IntroNumbered();
  }

  /** A name without a number is only title-cased. */
  lemma RenameNotesExample()
    ensures Renamer.FormatTitle("notes") == "Notes"
  {
    assert Match("notes") == None by {
      assert DigitRun("notes") == 0;
    }
    assert ReplaceChar("notes", '-', ' ') == "notes";
  }

  /** A bare number has no underscore and slug after it, so it is kept as it is. */
  lemma RenameBareNumberExample()
    ensures Renamer.FormatTitle("07") == "07"
  {
    assert Match("07") == None by {
      assert forall i, j :: Accepts("07", i, j) ==> i + 1 < j <= 2;
    }
    assert ReplaceChar("07", '-', ' ') == "07";
  }

  lemma TruncatedMatch()
    ensures Match("07_x y") == Some(Groups("07", "x"))
  {
    var s := "07_x y";
    assert s[..2] == "07" && s[3..4] == "x" && !IsSlugChar(s[4]);
    MatchAt(s, 2, 4);
  }

  lemma TruncatedNumbered()
    ensures NumberedTitle(Groups("07", "x")) == "7. X"
  {
    NumberDropsLeadingZeros("07");
    assert Decimal(DecimalValue("07")) == "7";
    assert ReplaceChar("x", '-', ' ') == "x";
    assert Title("x") == "X";
  }

  /** The slug stops at the first space, and the rest of the name is dropped. */
  lemma RenameTruncatedExample()
    ensures Renamer.FormatTitle("07_x y") == "7. X"
  {
    TruncatedMatch();
    TruncatedNumbered();
  }

  // ---------------------------------------------------------------------------
  // main.py
  // ---------------------------------------------------------------------------

  lemma DocumentMatch()
    ensures Match("01_document") == Some(Groups("01", "document"))
  {
    var s := "01_document";
    assert s[..2] == "01" && s[3..|s|] == "document";
    MatchAt(s, 2, |s|);
  }

  lemma DocumentNumbered()
    ensures NumberedTitle(Groups("01", "document")) == "1. Document"
  {
    NumberDropsLeadingZeros("01");
    assert ReplaceChar("document", '-', ' ') == "document";
  }

  lemma DocumentStem()
    ensures Notes.FormatTitle("01_document") == "1. Document"
  {
    Notes.DotlessKeepsName("01_document");
    DocumentMatch();
    DocumentNumbered();
  }

  /** The `.en.txt` suffix goes first; then the name is numbered as in rename.py. */
  lemma NotesDocumentExample()
    ensures Notes.FormatTitle("01_document.en.txt") == "1. Document"
  {
    Notes.FormatTitleIgnoresSuffix("01_document");
    assert "01_document" + Notes.EnTxt == "01_document.en.txt";
    DocumentStem();
  }

  lemma HyphenatedStem()
    ensures Notes.FormatTitle("my-notes") == "My-Notes"
  {
    Notes.DotlessKeepsName("my-notes");
    assert Match("my-notes") == None by {
      assert DigitRun("my-notes") == 0;
    }
  }

  /** main.py's fallback title-cases the name and keeps its hyphens. */
  lemma NotesHyphenatedExample()
    ensures Notes.FormatTitle("my-notes.en.txt") == "My-Notes"
  {
    Notes.FormatTitleIgnoresSuffix("my-notes");
    assert "my-notes" + Notes.EnTxt == "my-notes.en.txt";
    HyphenatedStem();
  }
}
