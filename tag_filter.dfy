/** The tag filter that decides which tracks the two renderers output.

    A track's tag is the tab-joined list of its points' tags; the filter looks
    only at whether the markers "Prox" and "Coloc" occur in it, and at the
    keyword the user chose.  Both renderers write the same five rules as a
    chain of assignments that can only switch the track off; here each chain
    is one function, and both are proved equal to one table of rules. */
module TagFilter {
  import opened Wrappers

  // ---------------------------------------------------------------------
  // Substring search
  // ---------------------------------------------------------------------

  /** `sub` occurs in `s` starting at index `i`. */
  predicate OccursAt(s: string, sub: string, i: nat)
  {
    i + |sub| <= |s| && s[i..i + |sub|] == sub
  }

  /** `sub` occurs somewhere in `s`. */
  ghost predicate Occurs(s: string, sub: string)
  {
    exists i: nat :: OccursAt(s, sub, i)
  }

  /** Index of the first occurrence of `sub` in `s` at or after `from`, or
      -1 when there is none. */
  function IndexOfFrom(s: string, sub: string, from: nat): (r: int)
    ensures r == -1 || (from <= r && OccursAt(s, sub, r))
    ensures r == -1 ==> forall i: nat :: from <= i ==> !OccursAt(s, sub, i)
    ensures r != -1 ==> forall i: nat :: from <= i < r ==> !OccursAt(s, sub, i)
    decreases |s| - from
  {
    if from + |sub| > |s| then -1
    else if s[from..from + |sub|] == sub then from
    else IndexOfFrom(s, sub, from + 1)
  }

  /** Java's `String.indexOf(String)`: the first index at which `sub`
      occurs in `s`, or -1. */
  function IndexOf(s: string, sub: string): int
  {
    IndexOfFrom(s, sub, 0)
  }

  /** The search fails exactly when the marker does not occur, and succeeds
      at the first occurrence otherwise. */
  lemma IndexOfSpec(s: string, sub: string)
    ensures IndexOf(s, sub) == -1 <==> !Occurs(s, sub)
    ensures IndexOf(s, sub) != -1 ==>
      OccursAt(s, sub, IndexOf(s, sub)) && forall i: nat :: i < IndexOf(s, sub) ==> !OccursAt(s, sub, i)
  {
    if IndexOf(s, sub) != -1 {
      var r: nat := IndexOf(s, sub);
      assert OccursAt(s, sub, r);
    }
  }

  // ---------------------------------------------------------------------
  // The rules as written
  // ---------------------------------------------------------------------

  /** The ROI renderer: the track's ROI `roi` survives the five rules, or is
      dropped (`None`) by one of them; "All" skips the rules. */
  function RoiFilter<R>(roi: Option<R>, currTag: string, tag: string): (r: Option<R>)
  {
    if tag == "All" then roi
    else
      var r1 := if (IndexOf(currTag, "Coloc") != -1 || IndexOf(currTag, "Prox") != -1) && tag == "NonProxColoc"
                then None else roi;
      var r2 := if IndexOf(currTag, "Prox") == -1 && tag == "Prox" then None else r1;
      var r3 := if IndexOf(currTag, "Coloc") == -1 && tag == "Coloc" then None else r2;
      var r4 := if (IndexOf(currTag, "Prox") == -1 || IndexOf(currTag, "Coloc") != -1) && tag == "ProxOnly"
                then None else r3;
      var r5 := if (IndexOf(currTag, "Coloc") == -1 || IndexOf(currTag, "Prox") != -1) && tag == "ColocOnly"
                then None else r4;
      r5
  }

  /** The results-table renderer: whether the track is logged after the five
      rules; "All" skips the rules. */
  function DoLog(currTag: string, tag: string): bool
  {
    if tag == "All" then true
    else
      var d1 := if (IndexOf(currTag, "Coloc") != -1 || IndexOf(currTag, "Prox") != -1) && tag == "NonProxColoc"
                then false else true;
      var d2 := if IndexOf(currTag, "Prox") == -1 && tag == "Prox" then false else d1;
      var d3 := if IndexOf(currTag, "Coloc") == -1 && tag == "Coloc" then false else d2;
      var d4 := if (IndexOf(currTag, "Prox") == -1 || IndexOf(currTag, "Coloc") != -1) && tag == "ProxOnly"
                then false else d3;
      var d5 := if (IndexOf(currTag, "Coloc") == -1 || IndexOf(currTag, "Prox") != -1) && tag == "ColocOnly"
                then false else d4;
      d5
  }

  // ---------------------------------------------------------------------
  // The rules as a table
  // ---------------------------------------------------------------------

  datatype Keyword = All | NonProxColoc | Prox | Coloc | ProxOnly | ColocOnly | Unknown

  function KeywordOf(tag: string): Keyword
  {
    if tag == "All" then All
    else if tag == "NonProxColoc" then NonProxColoc
    else if tag == "Prox" then Prox
    else if tag == "Coloc" then Coloc
    else if tag == "ProxOnly" then ProxOnly
    else if tag == "ColocOnly" then ColocOnly
    else Unknown
  }

  /** Which tracks each keyword selects, by the markers their tag holds. */
  function Selects(k: Keyword, prox: bool, coloc: bool): bool
  {
    match k
    case All => true
    case NonProxColoc => !prox && !coloc
    case Prox => prox
    case Coloc => coloc
    case ProxOnly => prox && !coloc
    case ColocOnly => coloc && !prox
    case Unknown => true
  }

  /** A track tagged `currTag` is output under keyword `tag`. */
  ghost predicate Included(currTag: string, tag: string)
  {
    Selects(KeywordOf(tag), Occurs(currTag, "Prox"), Occurs(currTag, "Coloc"))
  }

  // ---------------------------------------------------------------------
  // Properties
  // ---------------------------------------------------------------------

  /** The results table logs exactly the tracks the table of rules selects. */
  lemma DoLogIsIncluded(currTag: string, tag: string)
    ensures DoLog(currTag, tag) == Included(currTag, tag)
  {
    IndexOfSpec(currTag, "Prox");
    IndexOfSpec(currTag, "Coloc");
  }

  /** The ROI renderer keeps the ROI exactly for the tracks the table of
      rules selects, and keeps it unchanged. */
  lemma RoiFilterIsIncluded<R>(roi: R, currTag: string, tag: string)
    ensures RoiFilter(Some(roi), currTag, tag) == if Included(currTag, tag) then Some(roi) else None
  {
    IndexOfSpec(currTag, "Prox");
    IndexOfSpec(currTag, "Coloc");
  }

  /** Both renderers output the same tracks. */
  lemma RenderersAgree<R>(roi: R, currTag: string, tag: string)
    ensures RoiFilter(Some(roi), currTag, tag).Some? == DoLog(currTag, tag)
  {
    DoLogIsIncluded(currTag, tag);
    RoiFilterIsIncluded(roi, currTag, tag);
  }

  /** "All" and any keyword outside the five rules output every track. */
  lemma UnfilteredKeywords(currTag: string, tag: string)
    requires KeywordOf(tag) == All || KeywordOf(tag) == Unknown
    ensures DoLog(currTag, tag)
  {
    DoLogIsIncluded(currTag, tag);
  }

  /** The four markers' rules, keyword by keyword. */
  lemma KeywordRules(currTag: string)
    ensures DoLog(currTag, "NonProxColoc") <==> !Occurs(currTag, "Prox") && !Occurs(currTag, "Coloc")
    ensures DoLog(currTag, "Prox") <==> Occurs(currTag, "Prox")
    ensures DoLog(currTag, "Coloc") <==> Occurs(currTag, "Coloc")
    ensures DoLog(currTag, "ProxOnly") <==> Occurs(currTag, "Prox") && !Occurs(currTag, "Coloc")
    ensures DoLog(currTag, "ColocOnly") <==> Occurs(currTag, "Coloc") && !Occurs(currTag, "Prox")
  {
    DoLogIsIncluded(currTag, "NonProxColoc");
    DoLogIsIncluded(currTag, "Prox");
    DoLogIsIncluded(currTag, "Coloc");
    DoLogIsIncluded(currTag, "ProxOnly");
    DoLogIsIncluded(currTag, "ColocOnly");
  }

  /** A track that met both markers is output under "Prox" and "Coloc" but
      under none of the exclusive keywords. */
  lemma BothMarkers(currTag: string)
    requires currTag == "a\tProx\tColoc"
    ensures DoLog(currTag, "Prox") && DoLog(currTag, "Coloc")
    ensures !DoLog(currTag, "NonProxColoc")
    ensures !DoLog(currTag, "ProxOnly") && !DoLog(currTag, "ColocOnly")
  {
    assert currTag[2..6] == "Prox";
    assert OccursAt(currTag, "Prox", 2);
    assert currTag[7..12] == "Coloc";
    assert OccursAt(currTag, "Coloc", 7);
    KeywordRules(currTag);
  }

  /** A marker matches inside a longer word. */
  lemma MarkerInsideWord(currTag: string)
    requires currTag == "Proximal"
    ensures DoLog(currTag, "ProxOnly") && !DoLog(currTag, "ColocOnly")
  {
    assert currTag[0..4] == "Prox";
    assert OccursAt(currTag, "Prox", 0);
    assert !Occurs(currTag, "Coloc") by {
      forall i: nat
        ensures !OccursAt(currTag, "Coloc", i)
      {
        if i + 5 <= |currTag| {
          assert currTag[i..i + 5][0] == currTag[i];
        }
      }
    }
    KeywordRules(currTag);
  }
}
