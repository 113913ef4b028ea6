/** The string rules the extractors apply to an element's text:
    `split(': ')[1]` for the corpus id, `split(' ')[-1]` for the year and
    `split(' ')[0]` for the citation and reference counts. */
module PostProcess {
  import opened Wrappers
  import opened PySplit

  /** The separator of the corpus-id line ("Corpus ID: 123"). */
  const IdSep: string := ": "

  /** `text.split(': ')[1]`: succeeds exactly when the text contains
      `': '`, and then yields what follows its first occurrence up to the
      next one (or the end of the text). */
  function CorpusId(text: string): (r: Result<string, PyError>)
    ensures r.Success? <==> !Free(text, IdSep)
    ensures r.Failure? ==> r.error == IndexError
    ensures r.Success? ==>
      && Find(text, IdSep).Some?
      && Find(text, IdSep).value + |IdSep| <= |text|
      && var rest := text[Find(text, IdSep).value + |IdSep|..];
      && |r.value| <= |rest|
      && rest[..|r.value|] == r.value
      && (forall j: nat :: j < |r.value| ==> !OccursAt(rest, IdSep, j))
      && (|r.value| == |rest| || OccursAt(rest, IdSep, |r.value|))
  {
    var parts := Split(text, IdSep);
    Splits(text, IdSep);
    if |parts| < 2 then
      Failure(IndexError)
    else
      SecondSegment(text, IdSep);
      Success(parts[1])
  }

  /** A split has a second piece exactly when `sep` occurs, and that
      piece is the first piece of what follows the leftmost occurrence. */
  lemma SecondPiece(text: string, sep: string)
    requires |sep| > 0
    ensures |Split(text, sep)| >= 2 <==> Find(text, sep).Some?
    ensures Find(text, sep).Some? ==>
      && Find(text, sep).value + |sep| <= |text|
      && Split(text, sep)[1] == Split(text[Find(text, sep).value + |sep|..], sep)[0]
  {
  }

  /** A split has a second piece exactly when `sep` occurs. */
  lemma Splits(text: string, sep: string)
    requires |sep| > 0
    ensures |Split(text, sep)| >= 2 <==> !Free(text, sep)
  {
    SecondPiece(text, sep);
  }

  /** The second piece of a split is what follows the leftmost
      occurrence of `sep` up to the next occurrence or the end. */
  lemma SecondSegment(text: string, sep: string)
    requires |sep| > 0
    requires |Split(text, sep)| >= 2
    ensures Find(text, sep).Some?
    ensures Find(text, sep).value + |sep| <= |text|
    ensures var rest := text[Find(text, sep).value + |sep|..];
      var id := Split(text, sep)[1];
      && |id| <= |rest|
      && rest[..|id|] == id
      && (forall j: nat :: j < |id| ==> !OccursAt(rest, sep, j))
      && (|id| == |rest| || OccursAt(rest, sep, |id|))
  {
    SecondPiece(text, sep);
    FirstPiece(text[Find(text, sep).value + |sep|..], sep);
  }

  /** `text.split(' ')[-1]`: the longest suffix of the text without a
      space. */
  function Year(text: string): (r: string)
    ensures ' ' !in r
    ensures |r| <= |text| && r == text[|text| - |r|..]
    ensures |r| < |text| ==> text[|text| - |r| - 1] == ' '
  {
    var parts := Split(text, " ");
    var last := parts[|parts| - 1];
    SplitPiecesFree(text, " ");
    FreeChar(last, ' ');
    if |parts| >= 2 then
      JoinLast(parts, " ");
      last
    else
      last
  }

  /** `text.split(' ')[0]`: the longest prefix of the text without a
      space. */
  function Count(text: string): (r: string)
    ensures ' ' !in r
    ensures |r| <= |text| && r == text[..|r|]
    ensures |r| < |text| ==> text[|r|] == ' '
  {
    var parts := Split(text, " ");
    SplitPiecesFree(text, " ");
    FreeChar(parts[0], ' ');
    assert |parts| >= 2 ==> text == parts[0] + " " + Join(parts[1..], " ");
    parts[0]
  }

  /** Post-processing a year again changes nothing. */
  lemma YearIdempotent(text: string)
    ensures Year(Year(text)) == Year(text)
  {
    var y := Year(text);
    FreeChar(y, ' ');
    SplitFree(y, " ");
  }

  /** Post-processing a count again changes nothing ("123 Citations" gives
      "123", and "123" gives "123"). */
  lemma CountIdempotent(text: string)
    ensures Count(Count(text)) == Count(text)
  {
    var c := Count(text);
    FreeChar(c, ' ');
    SplitFree(c, " ");
  }

  /** A count followed by a space and any words post-processes to the
      count. */
  lemma CountOfLabel(n: string, words: string)
    requires ' ' !in n
    ensures Count(n + " " + words) == n
  {
    var text := n + " " + words;
    assert forall i :: 0 <= i < |n| ==> text[i] == n[i];
    assert text[|n|] == ' ';
  }
}
