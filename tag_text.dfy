/**
 * The comma-separated tag text. The tag editor cuts its text into a tag set
 * (`saveUserInput`) and writes a tag set back as text (`loadUserInput`); the
 * ping screen cuts its new-tag field into tags to add and into search
 * queries.
 */
module TagText {
  import opened KotlinText
  import opened StringOrder

  /** A tag as the parsers leave it: not empty, no comma, no whitespace at either end. */
  predicate IsCleanTag(t: string)
  {
    t != [] && ',' !in t && IsTrimmed(t)
  }

  /** `pieces.map { it.trim() }`. */
  function TrimEach(pieces: seq<string>): (r: seq<string>)
    ensures |r| == |pieces| && forall i :: 0 <= i < |pieces| ==> r[i] == Trim(pieces[i])
  {
    if pieces == [] then [] else [Trim(pieces[0])] + TrimEach(pieces[1..])
  }

  /** `pieces.filter { it.isNotBlank() }`: the non-blank pieces, in their order. */
  function NonBlank(pieces: seq<string>): (r: seq<string>)
    ensures |r| <= |pieces|
    ensures forall x :: x in r <==> x in pieces && !IsBlank(x)
  {
    if pieces == [] then []
    else if IsBlank(pieces[0]) then NonBlank(pieces[1..])
    else [pieces[0]] + NonBlank(pieces[1..])
  }

  /** `filter` keeps nothing of pieces that are all blank. */
  lemma NonBlankOfBlanks(pieces: seq<string>)
    requires forall x :: x in pieces ==> IsBlank(x)
    ensures NonBlank(pieces) == []
  {
  }

  /** `filter` on one piece keeps it exactly when it is not blank. */
  lemma NonBlankOne(p: string)
    ensures NonBlank([p]) == if IsBlank(p) then [] else [p]
  {
  }

  /**
   * `filter` works piece by piece: the kept pieces of `a + b` are those of
   * `a` followed by those of `b`, so order and repeats are kept.
   */
  lemma {:induction false} NonBlankAppend(a: seq<string>, b: seq<string>)
    ensures NonBlank(a + b) == NonBlank(a) + NonBlank(b)
    decreases |a|
  {
    if a == [] {
      assert a + b == b;
    } else {
      NonBlankAppend(a[1..], b);
      var ab := a + b;
      assert ab[0] == a[0] && ab[1..] == a[1..] + b;
      var x, y := NonBlank(a[1..]), NonBlank(b);
      if IsBlank(a[0]) {
        assert NonBlank(ab) == x + y && NonBlank(a) == x;
      } else {
        assert NonBlank(ab) == [a[0]] + (x + y) && NonBlank(a) == [a[0]] + x;
        assert [a[0]] + (x + y) == ([a[0]] + x) + y;
      }
    }
  }

  /** `text.split(",").map { it.trim() }`: the trimmed pieces between commas. */
  function Pieces(text: string): seq<string>
  {
    TrimEach(Split(text, ','))
  }

  /** Every trimmed piece is trimmed and holds no comma. */
  lemma PiecesTrimmed(text: string)
    ensures forall p :: p in Pieces(text) ==> IsTrimmed(p) && ',' !in p
  {
    var parts := Split(text, ',');
    forall i | 0 <= i < |parts|
      ensures ',' !in Trim(parts[i])
    {
      TrimKeepsOut(parts[i], ',');
    }
  }

  /** A piece that `trim` left non-empty is not blank, and the other way round. */
  lemma TrimmedNotEmptyIffNotBlank(p: string)
    ensures Trim(p) != [] <==> !IsBlank(Trim(p))
  {
    var t := Trim(p);
    assert t != [] ==> !IsWhitespace(t[0]);
  }

  /** The non-blank trimmed pieces are clean tags. */
  lemma NonBlankPiecesClean(text: string)
    ensures forall t :: t in NonBlank(Pieces(text)) ==> IsCleanTag(t)
  {
    PiecesTrimmed(text);
    forall t | t in NonBlank(Pieces(text))
      ensures IsCleanTag(t)
    {
      assert t in Pieces(text) && !IsBlank(t);
    }
  }

  /**
   * `newTags` on the ping screen: the non-blank trimmed pieces of the
   * new-tag field, in the order they were typed. Each is a clean tag.
   */
  function NewTags(text: string): (r: seq<string>)
    ensures forall t :: t in r ==> IsCleanTag(t)
  {
    NonBlankPiecesClean(text);
    NonBlank(Pieces(text))
  }

  /** `queries` on the ping screen: the new tags as a set. */
  function Queries(text: string): (r: set<string>)
    ensures forall q :: q in r ==> IsCleanTag(q)
  {
    set t | t in NewTags(text)
  }

  /**
   * The tag editor's parse: the non-empty trimmed pieces as a set, so a
   * tag typed twice is kept once. Each is a clean tag.
   */
  function ParseTagList(text: string): (r: set<string>)
    ensures forall t :: t in r ==> IsCleanTag(t)
  {
    PiecesTrimmed(text);
    set t | t in Pieces(text) && t != []
  }

  /**
   * The editor's `isNotEmpty` after `trim` and the ping screen's
   * `isNotBlank` accept the same pieces, so both parsers find the same tags.
   */
  lemma ParseAgreesWithQueries(text: string)
    ensures ParseTagList(text) == Queries(text)
  {
    var parts := Split(text, ',');
    forall i | 0 <= i < |parts|
      ensures Trim(parts[i]) != [] <==> !IsBlank(Trim(parts[i]))
    {
      TrimmedNotEmptyIffNotBlank(parts[i]);
    }
  }

  /** Cutting a text of whitespace and commas at its commas leaves blank pieces. */
  lemma {:induction false} SplitPiecesInText(text: string)
    requires forall i :: 0 <= i < |text| ==> IsWhitespace(text[i]) || text[i] == ','
    ensures forall p :: p in Split(text, ',') ==> IsBlank(p)
    decreases |text|
  {
    if text != [] {
      SplitPiecesInText(text[1..]);
      var rest := Split(text[1..], ',');
      if text[0] != ',' {
        var first := [text[0]] + rest[0];
        assert rest[0] in rest;
        assert forall k :: 1 <= k < |first| ==> first[k] == rest[0][k - 1];
        assert forall p :: p in rest[1..] ==> p in rest;
      }
    }
  }

  /** A text of nothing but whitespace and commas trims to empty pieces only. */
  lemma BlankTextPiecesEmpty(text: string)
    requires forall i :: 0 <= i < |text| ==> IsWhitespace(text[i]) || text[i] == ','
    ensures forall p :: p in Pieces(text) ==> p == []
  {
    SplitPiecesInText(text);
    var parts := Split(text, ',');
    forall i | 0 <= i < |parts|
      ensures Trim(parts[i]) == []
    {
      assert parts[i] in parts;
    }
  }

  /** A text of nothing but whitespace and commas holds no tag. */
  lemma BlankTextHasNoTags(text: string)
    requires forall i :: 0 <= i < |text| ==> IsWhitespace(text[i]) || text[i] == ','
    ensures ParseTagList(text) == {} && NewTags(text) == [] && Queries(text) == {}
  {
    BlankTextPiecesEmpty(text);
    assert IsBlank([]);
    NonBlankOfBlanks(Pieces(text));
  }

  /** `loadUserInput`: the tags in `String` order, joined by ", ". */
  ghost function Render(tags: set<string>): string
  {
    Join(Sorted(tags), ", ")
  }

  /**
   * The rendered text, cut at its commas: the first tag, then every other
   * tag in order with the space of ", " in front of it.
   */
  lemma RenderPieces(tags: set<string>)
    requires tags != {} && forall t :: t in tags ==> IsCleanTag(t)
    ensures var sorted, parts := Sorted(tags), Split(Render(tags), ',');
      |parts| == |sorted| && parts[0] == sorted[0] &&
      forall i :: 0 < i < |parts| ==> parts[i] == " " + sorted[i]
  {
    var sorted := Sorted(tags);
    assert forall i :: 0 <= i < |sorted| ==> sorted[i] in tags;
    assert ", " == [','] + " ";
    SplitJoin(sorted, ',', " ");
  }

  /** The space that ", " leaves in front of a clean tag is trimmed away. */
  lemma TrimSpacedTag(t: string)
    requires IsCleanTag(t)
    ensures Trim(" " + t) == t
  {
    TrimAfterBlank(" ", t);
  }

  /** Trimming the rendered pieces of clean tags gives back the sorted tags. */
  lemma RenderedPiecesTrimToTags(tags: set<string>)
    requires tags != {} && forall t :: t in tags ==> IsCleanTag(t)
    ensures Pieces(Render(tags)) == Sorted(tags)
  {
    var sorted := Sorted(tags);
    RenderPieces(tags);
    var parts := Split(Render(tags), ',');
    forall i | 0 <= i < |sorted|
      ensures Trim(parts[i]) == sorted[i]
    {
      assert sorted[i] in tags;
      if i == 0 {
        TrimmedIsFixed(sorted[0]);
      } else {
        TrimSpacedTag(sorted[i]);
      }
    }
  }

  /**
   * Opening the tag editor and closing it unchanged keeps the stored tag set:
   * parsing the rendered text of clean tags gives back the same tags.
   */
  lemma RenderThenParse(tags: set<string>)
    requires forall t :: t in tags ==> IsCleanTag(t)
    ensures ParseTagList(Render(tags)) == tags
  {
    if tags == {} {
      assert Pieces(Render(tags)) == [[]];
    } else {
      RenderedPiecesTrimToTags(tags);
    }
  }

  /** Saving what the editor shows changes nothing: parse, render, parse is parse. */
  lemma ParseIdempotent(text: string)
    ensures ParseTagList(Render(ParseTagList(text))) == ParseTagList(text)
  {
    RenderThenParse(ParseTagList(text));
  }
}
