/** `util.SplitAndTrim`: the comma-list cleaning that the command line also does inline. */
module Utils {
  import opened Strings

  /** One item of the list: white space trimmed first, then slashes. */
  function CleanItem(item: string): (r: string)
    ensures |r| > 0 ==> r[0] != '/' && r[|r| - 1] != '/'
  {
    TrimSlashes(TrimSpace(item))
  }

  /** Cleaning an item brings in no comma. */
  lemma CleanItemLacksComma(item: string)
    requires ',' !in item
    ensures ',' !in CleanItem(item)
  {
    TrimLacks(item, Space, ',');
    TrimLacks(TrimSpace(item), Char('/'), ',');
  }

  /** An item the list may hold: non-empty, no slash at either end, no comma. */
  predicate IsListItem(item: string)
  {
    item != "" && item[0] != '/' && item[|item| - 1] != '/' && ',' !in item
  }

  /** The cleaned pieces, in order, with the empty ones dropped. */
  function Kept(pieces: seq<string>): seq<string>
  {
    if pieces == [] then []
    else
      var item := CleanItem(pieces[|pieces| - 1]);
      Kept(pieces[..|pieces| - 1]) + (if item != "" then [item] else [])
  }

  /** What `SplitAndTrim(input)` returns. */
  function SplitAndTrimSpec(input: string): seq<string>
  {
    if |input| == 0 then [] else Kept(Split(input, ','))
  }

  /** Reading one more piece adds its cleaned form, unless that is empty. */
  lemma KeptStep(pieces: seq<string>, i: nat)
    requires i < |pieces|
    ensures Kept(pieces[..i + 1])
         == Kept(pieces[..i]) + (if CleanItem(pieces[i]) != "" then [CleanItem(pieces[i])] else [])
  {
    assert pieces[..i + 1][..i] == pieces[..i];
  }

  /** Every kept item is a proper list item, and there are at most as many as pieces. */
  lemma {:induction false} KeptItems(pieces: seq<string>)
    requires forall k :: 0 <= k < |pieces| ==> ',' !in pieces[k]
    ensures forall k :: 0 <= k < |Kept(pieces)| ==> IsListItem(Kept(pieces)[k])
    ensures |Kept(pieces)| <= |pieces|
    decreases |pieces|
  {
    if pieces != [] {
      var n := |pieces| - 1;
      var rest := Kept(pieces[..n]);
      var item := CleanItem(pieces[n]);
      KeptItems(pieces[..n]);
      CleanItemLacksComma(pieces[n]);
      assert Kept(pieces) == rest + (if item != "" then [item] else []);
      forall k | 0 <= k < |Kept(pieces)| ensures IsListItem(Kept(pieces)[k]) {
        if k < |rest| {
          assert Kept(pieces)[k] == rest[k];
        } else {
          assert Kept(pieces)[k] == item;
        }
      }
    }
  }

  /**
   * `util.SplitAndTrim`: splits on commas, trims each piece and keeps the
   * non-empty ones. Go returns nil for the empty input; both nil and an
   * empty slice are the empty sequence here.
   */
  method SplitAndTrim(input: string) returns (result: seq<string>)
    ensures result == SplitAndTrimSpec(input)
    ensures |input| == 0 ==> result == []
    ensures forall k :: 0 <= k < |result| ==> IsListItem(result[k])
  {
    if |input| == 0 {
      return [];
    }
    result := CleanPieces(Split(input, ','));
    SplitAndTrimItems(input);
  }

  /** The loop of `util.SplitAndTrim` over the pieces: trim each, keep the non-empty ones. */
  method CleanPieces(split: seq<string>) returns (result: seq<string>)
    ensures result == Kept(split)
    ensures |result| <= |split|
  {
    result := [];
    var i := 0;
    while i < |split|
      invariant 0 <= i <= |split|
      invariant result == Kept(split[..i])
      invariant |result| <= i
    {
      KeptStep(split, i);
      var item := TrimSpace(split[i]);
      item := TrimSlashes(item);
      if item != "" {
        result := result + [item];
      }
      i := i + 1;
    }
    assert split[..|split|] == split;
  }

  /** Every item of the list is proper, and there is at most one per comma-separated piece. */
  lemma SplitAndTrimItems(input: string)
    ensures forall k :: 0 <= k < |SplitAndTrimSpec(input)| ==> IsListItem(SplitAndTrimSpec(input)[k])
    ensures |SplitAndTrimSpec(input)| <= Count(input, ',') + 1
  {
    if |input| > 0 {
      SplitPiecesLack(input, ',');
      KeptItems(Split(input, ','));
      SplitLength(input, ',');
    }
  }

  /** Cleaning distributes over concatenation of the piece lists: order is kept. */
  lemma {:induction false} KeptAppend(a: seq<string>, b: seq<string>)
    ensures Kept(a + b) == Kept(a) + Kept(b)
    decreases |b|
  {
    if b == [] {
      assert a + b == a;
    } else {
      var b' := b[..|b| - 1];
      assert (a + b)[..|a + b| - 1] == a + b';
      assert (a + b)[|a + b| - 1] == b[|b| - 1];
      KeptAppend(a, b');
    }
  }

  /**
   * The list of `a,b` is the list of `a` followed by the list of `b`: items
   * keep their input order, and an empty side contributes nothing.
   */
  lemma SplitAndTrimConcat(a: string, b: string)
    ensures SplitAndTrimSpec(a + "," + b) == SplitAndTrimSpec(a) + SplitAndTrimSpec(b)
  {
    var s := a + "," + b;
    assert s == a + [','] + b;
    assert |s| > 0;
    SplitAppend(a, b, ',');
    KeptAppend(Split(a, ','), Split(b, ','));
    SpecIsKept(a);
    SpecIsKept(b);
  }

  /** The empty input is also the one empty piece, which is dropped. */
  lemma SpecIsKept(input: string)
    ensures SplitAndTrimSpec(input) == Kept(Split(input, ','))
  {
    if |input| == 0 {
      assert Split(input, ',') == [""];
      assert [""][..0] == [];
    }
  }

  /** White space is trimmed before slashes, so a space inside a slash survives. */
  lemma InnerSpaceSurvives()
    ensures SplitAndTrimSpec("/ a") == [" a"]
  {
    SplitNoSep("/ a", ',');
    assert TrimSpace("/ a") == "/ a";
    assert TrimLeft("/ a", Char('/')) == " a";
    assert TrimRight(" a", Char('/')) == " a";
    assert [" a"][..0] == [];
  }
}
