/** Worked inputs of `clean_text`, each showing one behaviour of the regular
    expressions it applies. The inputs are named constants, assembled from
    the pieces the general lemmas take apart; each step computed on a
    literal piece sits in a small lemma of its own, so that no single proof
    evaluates the whole pipeline on a long literal. */
module CleanTextExamples {
  import opened CleanText
  import opened CleanTextProperties

  const BoldReview: string := "<b>GREAT</b> movie!!"
  const OpenBold: string := "<b>"
  const Great: string := "GREAT"
  const CloseBold: string := "</b>"
  const MovieBang: string := " movie!!"

  /* Each tag of `<b>GREAT</b> movie!!` is deleted on its own, so the word
     between the tags survives; case is folded and the punctuation goes. */
  lemma ExampleSeparateTags()
    ensures Clean(BoldReview) == "great movie"
  {
    assert "great movie" == "great" + " movie";
    BoldOpeningTagDeleted();
    GreatKept();
    ClosingTagDeleted();
  }

  lemma BoldOpeningTagDeleted()
    ensures Clean(BoldReview) == Clean(Great + (CloseBold + MovieBang))
  {
    assert BoldReview == OpenBold + (Great + (CloseBold + MovieBang));
    CleanDeletesLeadingTag(OpenBold, Great + (CloseBold + MovieBang));
  }

  lemma GreatKept()
    ensures Clean(Great + (CloseBold + MovieBang)) == "great" + Clean(CloseBold + MovieBang)
  {
    CleanPlainPrefix(Great, CloseBold + MovieBang);
    assert DropOthers(Lower("GREAT")) == "great";
  }

  lemma ClosingTagDeleted()
    ensures Clean(CloseBold + MovieBang) == " movie"
  {
    CleanDeletesLeadingTag(CloseBold, MovieBang);
    CleanMovieBang();
  }

  lemma CleanMovieBang()
    ensures Clean(MovieBang) == " movie"
  {
    LowerMovieBang();
    StripMovieBang();
    FilterMovieBang();
  }

  lemma LowerMovieBang()
    ensures Lower(MovieBang) == MovieBang
  {
  }

  lemma StripMovieBang()
    ensures StripTags(MovieBang) == MovieBang
  {
    StripTagsPlainPrefix(MovieBang, []);
    assert MovieBang + [] == MovieBang;
  }

  lemma FilterMovieBang()
    ensures DropOthers(MovieBang) == " movie"
  {
    assert MovieBang == Movie + Bangs;
    DropOthersConcat(Movie, Bangs);
    FilterMovie();
    FilterBangs();
  }

  const Movie: string := " movie"
  const Bangs: string := "!!"

  lemma FilterMovie()
    ensures DropOthers(Movie) == Movie
  {
  }

  lemma FilterBangs()
    ensures DropOthers(Bangs) == []
  {
  }

  const NestedReview: string := "<a<b>ok"
  const NestedTag: string := "<a<b>"

  /* A second `<` before the `>` is part of the match: all of `<a<b>` goes. */
  lemma ExampleNestedAngle()
    ensures Clean(NestedReview) == "ok"
  {
    assert NestedReview == NestedTag + "ok";
    CleanDeletesLeadingTag(NestedTag, "ok");
    CleanOk();
  }

  lemma CleanOk()
    ensures Clean("ok") == "ok"
  {
  }

  const SplitTag: string := "<a\nB>"

  /* A `<...>` span with a newline inside is no match: only `<` and `>` are
     deleted, by the last step, and the letters and the newline survive. */
  lemma ExampleNewlineInsideTag()
    ensures Clean(SplitTag) == "a\nb"
  {
    assert SplitTag == "<a" + ['\n'] + "B>";
    CleanSplitsAtNewline("<a", "B>");
    CleanOpenA();
    CleanCloseB();
    LetterNewlineLetter();
  }

  lemma CleanOpenA()
    ensures Clean("<a") == "a"
  {
  }

  lemma CleanCloseB()
    ensures Clean("B>") == "b"
  {
  }

  lemma LetterNewlineLetter()
    ensures "a" + ['\n'] + "b" == "a\nb"
  {
  }

  const HeartReview: string := "I <3 it"
  const HeartTail: string := "<3 it"

  /* A `<` with no `>` after it is no match: it goes only in the last step,
     with the digit, and both spaces around it stay. */
  lemma ExampleUnclosedAngle()
    ensures Clean(HeartReview) == "i  it"
  {
    assert HeartReview == "I " + HeartTail;
    CleanPlainPrefix("I ", HeartTail);
    FilterLowerI();
    CleanHeartTail();
    TwoSpaces();
  }

  lemma FilterLowerI()
    ensures DropOthers(Lower("I ")) == "i "
  {
  }

  lemma CleanHeartTail()
    ensures Clean(HeartTail) == " it"
  {
    LowerHeartTail();
    StripHeartTail();
    FilterHeartTail();
  }

  lemma LowerHeartTail()
    ensures Lower(HeartTail) == HeartTail
  {
  }

  lemma StripHeartTail()
    ensures StripTags(HeartTail) == HeartTail
  {
    NoCloseNoTagChange(HeartTail);
  }

  lemma FilterHeartTail()
    ensures DropOthers(HeartTail) == " it"
  {
  }

  /* A text without `>` holds no match, so tag deletion leaves it alone. */
  lemma NoCloseNoTagChange(s: string)
    requires '>' !in s
    ensures StripTags(s) == s
  {
    StripTagsUnchangedIff(s);
  }

  lemma TwoSpaces()
    ensures "i " + " it" == "i  it"
  {
  }

  const Blank: string := "   "

  /* Text made only of whitespace comes out unchanged: nothing is trimmed. */
  lemma ExampleWhitespaceOnly()
    ensures Clean(Blank) == "   "
  {
  }
}
