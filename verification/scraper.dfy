/** The text clean-up of the scraper (scrape_data.py): the page's visible text is
    normalised with `" ".join(text.split())` before it is saved as the company
    context. Fetching the page and extracting its text are not part of this model. */
module Scraper {
  import opened Strings

  /** `" ".join(text.split())`: every run of whitespace becomes one space and the
      ends are trimmed. The words of the result are exactly the words of `text`,
      in order, and the result is empty exactly when `text` is all whitespace. */
  function CollapseWhitespace(text: string): (clean: string)
    ensures NoEdgeWhitespace(clean)
    ensures forall k :: (0 <= k < |clean| && IsWhitespace(clean[k])) ==> clean[k] == ' '
    ensures forall k :: (0 <= k < |clean| - 1) ==> !(clean[k] == ' ' && clean[k + 1] == ' ')
    ensures Split(clean) == Split(text)
    ensures clean == [] <==> AllWhitespace(text)
  {
    var words := Split(text);
    JoinedWordsShape(words);
    SplitJoin(words);
    SplitEmptyIffAllWhitespace(text);
    Join(words, " ")
  }

  /** A tab between two words becomes one space, and neither word is broken up. */
  lemma CollapseWhitespaceExample(text: string)
    requires text == "ab\tcd"
    ensures Split(text) == ["ab", "cd"]
    ensures CollapseWhitespace(text) == "ab cd"
  {
    assert text == "ab" + "\t" + "cd";
    SplitTwoWords("ab", "\t", "cd");
    var words: seq<string> := ["ab", "cd"];
    assert words[1..] == ["cd"];
    assert Join(words, " ") == "ab" + " " + "cd";
  }

  /** Cleaning already-cleaned text changes nothing. */
  lemma CollapseWhitespaceIdempotent(text: string)
    ensures CollapseWhitespace(CollapseWhitespace(text)) == CollapseWhitespace(text)
  {
    var clean := CollapseWhitespace(text);
    assert Split(clean) == Split(text);
  }

  /** The cleaned text keeps every non-whitespace character of the input, in order. */
  lemma CollapseWhitespaceKeepsCharacters(text: string)
    ensures NonWhitespace(CollapseWhitespace(text)) == NonWhitespace(text)
  {
    var clean := CollapseWhitespace(text);
    SplitKeepsCharacters(text);
    SplitKeepsCharacters(clean);
  }
}
