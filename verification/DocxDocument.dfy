/**
 The DOCX oracle's operations on a parsed document: resolving an edit given relative to a run,
 applying it to the text nodes it selects, and merging the runs of a paragraph in place.
 */
module DocxDocument {
  import opened Json
  import opened DocxOracle
  import opened DocxTree

  // ---------------------------------------------------------------- the selected text nodes

  /** A selected text node: the child it lies in and where it starts in the paragraph's text. */
  datatype Pick = Pick(child: nat, offset: nat)

  function Picked(texts: seq<string>, child: nat, offset: nat, e: Edit): seq<Pick> {
    if texts == [] then []
    else
      var init, last := texts[..|texts| - 1], texts[|texts| - 1];
      Picked(init, child, offset, e)
      + (if Meets(offset + |Join(init)|, |last|, e) then [Pick(child, offset + |Join(init)|)] else [])
  }

  /** Where each child starts, and where the text ends. */
  ghost predicate Laid(cs: seq<Child>, starts: seq<nat>) {
    |starts| == |cs| + 1 && LaidTo(cs, starts, |cs|)
  }

  ghost predicate LaidTo(cs: seq<Child>, starts: seq<nat>, n: nat) {
    n <= |cs| && |starts| == n + 1 && starts[0] == 0 && forall i :: 0 <= i < n ==> LaidAt(cs, starts, i)
  }

  predicate LaidAt(cs: seq<Child>, starts: seq<nat>, i: nat)
    requires i < |cs| && i + 1 < |starts|
  {
    starts[i + 1] == starts[i] + |ChildText(cs[i])|
  }

  /** The selected text nodes of the first `n` children. */
  function Selected(cs: seq<Child>, starts: seq<nat>, n: nat, e: Edit): seq<Pick>
    requires n <= |cs| && n < |starts|
  {
    if n == 0 then [] else Selected(cs, starts, n - 1, e) + Picked(Nodes(cs[n - 1]), n - 1, starts[n - 1], e)
  }

  predicate MeetsAt(starts: seq<nat>, i: nat, e: Edit)
    requires i + 1 < |starts|
  {
    starts[i] < e.end && starts[i + 1] > e.start
  }

  predicate IsPicked(picks: seq<Pick>, child: nat) {
    exists k :: 0 <= k < |picks| && picks[k].child == child
  }

  predicate Placed(cs: seq<Child>, starts: seq<nat>, pick: Pick, n: nat, e: Edit)
    requires |starts| == |cs| + 1 && n <= |cs|
  {
    pick.child < n && MeetsAt(starts, pick.child, e) && (cs[pick.child].Run? ==> pick.offset == starts[pick.child])
  }

  /** Selected nodes come in the order of their children, and a run holds at most one. */
  predicate InOrder(cs: seq<Child>, a: Pick, b: Pick) {
    a.child <= b.child && (a.child < |cs| && cs[a.child].Run? ==> a.child < b.child)
  }

  lemma {:induction false} SelectedPrefix(cs: seq<Child>, starts: seq<nat>, more: seq<nat>, n: nat, e: Edit)
    requires n <= |cs| && n < |starts|
    ensures Selected(cs, starts + more, n, e) == Selected(cs, starts, n, e)
  {
    if n > 0 {
      var picked := Picked(Nodes(cs[n - 1]), n - 1, starts[n - 1], e);
      calc {
        Selected(cs, starts + more, n, e);
        { assert (starts + more)[n - 1] == starts[n - 1]; }
        Selected(cs, starts + more, n - 1, e) + picked;
        { SelectedPrefix(cs, starts, more, n - 1, e); }
        Selected(cs, starts, n - 1, e) + picked;
        Selected(cs, starts, n, e);
      }
    }
  }

  lemma LaidStep(cs: seq<Child>, starts: seq<nat>, n: nat, next: nat)
    requires LaidTo(cs, starts, n) && n < |cs| && next == starts[n] + |ChildText(cs[n])|
    ensures LaidTo(cs, starts + [next], n + 1)
  {
    forall i | 0 <= i < n + 1 ensures LaidAt(cs, starts + [next], i) {
      assert i < n ==> LaidAt(cs, starts, i);
    }
  }

  lemma SelectedStep(cs: seq<Child>, starts: seq<nat>, n: nat, next: nat, e: Edit)
    requires n < |cs| && |starts| == n + 1
    ensures Selected(cs, starts + [next], n + 1, e)
         == Selected(cs, starts, n, e) + Picked(Nodes(cs[n]), n, starts[n], e)
  {
    SelectedPrefix(cs, starts, [next], n, e);
  }

  /** A child that meets the range is picked, unless it is not a run and holds no text. */
  predicate Covered(cs: seq<Child>, starts: seq<nat>, picks: seq<Pick>, i: nat, e: Edit)
    requires i < |cs| && i + 1 < |starts|
  {
    MeetsAt(starts, i, e) && (cs[i].Run? || starts[i] < starts[i + 1]) ==> IsPicked(picks, i)
  }

  /** What a list of selected text nodes says about the children. */
  ghost predicate Summary(cs: seq<Child>, starts: seq<nat>, n: nat, picks: seq<Pick>, e: Edit)
    requires |starts| == |cs| + 1 && n <= |cs|
  {
    && (forall k :: 0 <= k < |picks| ==> Placed(cs, starts, picks[k], n, e))
    && (forall k, l :: 0 <= k < l < |picks| ==> InOrder(cs, picks[k], picks[l]))
    && (forall i :: 0 <= i < n ==> Covered(cs, starts, picks, i, e))
  }

  lemma {:induction false} PickedFacts(texts: seq<string>, child: nat, offset: nat, e: Edit)
    requires e.start < e.end
    ensures forall k :: 0 <= k < |Picked(texts, child, offset, e)| ==> Picked(texts, child, offset, e)[k].child == child
    ensures Picked(texts, child, offset, e) != [] ==> Meets(offset, |Join(texts)|, e)
    ensures Join(texts) != "" && Meets(offset, |Join(texts)|, e) ==> Picked(texts, child, offset, e) != []
  {
    if texts != [] {
      PickedFacts(texts[..|texts| - 1], child, offset, e);
    }
  }

  lemma PickedOfRun(c: Child, child: nat, offset: nat, e: Edit)
    requires c.Run?
    ensures Picked(Nodes(c), child, offset, e) == if Meets(offset, |c.text|, e) then [Pick(child, offset)] else []
  {
    assert Nodes(c)[..0] == [];
  }

  lemma PlacedStep(cs: seq<Child>, starts: seq<nat>, n: nat, picks: seq<Pick>, more: seq<Pick>, e: Edit)
    requires |starts| == |cs| + 1 && n < |cs| && Summary(cs, starts, n, picks, e)
    requires LaidAt(cs, starts, n) && PickedRightly(cs[n], n, starts[n], more, e)
    ensures forall k :: 0 <= k < |picks + more| ==> Placed(cs, starts, (picks + more)[k], n + 1, e)
  {
    forall k | 0 <= k < |picks + more| ensures Placed(cs, starts, (picks + more)[k], n + 1, e) {
      assert k < |picks| ==> Placed(cs, starts, picks[k], n, e);
    }
  }

  lemma InOrderStep(cs: seq<Child>, starts: seq<nat>, n: nat, picks: seq<Pick>, more: seq<Pick>, e: Edit)
    requires |starts| == |cs| + 1 && n < |cs| && Summary(cs, starts, n, picks, e)
    requires PickedRightly(cs[n], n, starts[n], more, e)
    ensures forall k, l :: 0 <= k < l < |picks + more| ==> InOrder(cs, (picks + more)[k], (picks + more)[l])
  {
    forall k, l | 0 <= k < l < |picks + more| ensures InOrder(cs, (picks + more)[k], (picks + more)[l]) {
      if l < |picks| {
        assert InOrder(cs, picks[k], picks[l]);
      } else if k < |picks| {
        assert Placed(cs, starts, picks[k], n, e);
      }
    }
  }

  lemma CoveredStep(cs: seq<Child>, starts: seq<nat>, n: nat, picks: seq<Pick>, more: seq<Pick>, e: Edit)
    requires |starts| == |cs| + 1 && n < |cs| && Summary(cs, starts, n, picks, e)
    requires LaidAt(cs, starts, n) && PickedRightly(cs[n], n, starts[n], more, e)
    ensures forall i :: 0 <= i < n + 1 ==> Covered(cs, starts, picks + more, i, e)
  {
    forall i | 0 <= i < n + 1 ensures Covered(cs, starts, picks + more, i, e) {
      if i < n {
        assert Covered(cs, starts, picks, i, e);
        if IsPicked(picks, i) {
          var k :| 0 <= k < |picks| && picks[k].child == i;
          assert (picks + more)[k].child == i;
        }
      } else if more != [] {
        assert (picks + more)[|picks|].child == n;
      }
    }
  }

  lemma SummaryStep(cs: seq<Child>, starts: seq<nat>, n: nat, picks: seq<Pick>, more: seq<Pick>, e: Edit)
    requires |starts| == |cs| + 1 && n < |cs| && Summary(cs, starts, n, picks, e)
    requires LaidAt(cs, starts, n) && PickedRightly(cs[n], n, starts[n], more, e)
    ensures Summary(cs, starts, n + 1, picks + more, e)
  {
    PlacedStep(cs, starts, n, picks, more, e);
    InOrderStep(cs, starts, n, picks, more, e);
    CoveredStep(cs, starts, n, picks, more, e);
  }

  /** What the selected nodes of one child say about it. */
  predicate PickedRightly(c: Child, n: nat, start: nat, more: seq<Pick>, e: Edit) {
    var meets := Meets(start, |ChildText(c)|, e);
    && (forall k :: 0 <= k < |more| ==> more[k].child == n)
    && (more != [] ==> meets)
    && (c.Run? ==> more == if meets then [Pick(n, start)] else [])
    && (meets && ChildText(c) != "" ==> more != [])
  }

  lemma PickedOfChild(c: Child, n: nat, start: nat, e: Edit)
    requires e.start < e.end
    ensures PickedRightly(c, n, start, Picked(Nodes(c), n, start, e), e)
  {
    PickedFacts(Nodes(c), n, start, e);
    TextIsNodes(c);
    if c.Run? {
      PickedOfRun(c, n, start, e);
    }
  }

  lemma {:induction false} SelectedFacts(cs: seq<Child>, starts: seq<nat>, n: nat, e: Edit)
    requires Laid(cs, starts) && n <= |cs| && e.start < e.end
    ensures Summary(cs, starts, n, Selected(cs, starts, n, e), e)
  {
    if n > 0 {
      hide Summary, PickedRightly, Nodes, Picked;
      SelectedFacts(cs, starts, n - 1, e);
      PickedOfChild(cs[n - 1], n - 1, starts[n - 1], e);
      assert LaidAt(cs, starts, n - 1);
      SummaryStep(cs, starts, n - 1, Selected(cs, starts, n - 1, e),
          Picked(Nodes(cs[n - 1]), n - 1, starts[n - 1], e), e);
    }
  }

  // ---------------------------------------------------------------- where children start

  lemma OffsetStep(cs: seq<Child>, i: nat)
    requires i < |cs|
    ensures Offset(cs, i + 1) == Offset(cs, i) + |ChildText(cs[i])|
  {
    assert cs[..i + 1] == cs[..i] + [cs[i]];
    TextSnoc(cs[..i], cs[i]);
  }

  lemma {:induction false} StartIsOffset(cs: seq<Child>, starts: seq<nat>, i: nat)
    requires Laid(cs, starts) && i <= |cs|
    ensures starts[i] == Offset(cs, i)
  {
    if i > 0 {
      StartIsOffset(cs, starts, i - 1);
      assert LaidAt(cs, starts, i - 1);
      OffsetStep(cs, i - 1);
    }
  }

  lemma EndIsLength(cs: seq<Child>, starts: seq<nat>)
    requires Laid(cs, starts)
    ensures starts[|cs|] == |Text(cs)|
  {
    StartIsOffset(cs, starts, |cs|);
    assert cs[..|cs|] == cs;
  }

  ghost predicate Ascending(starts: seq<nat>) {
    starts != [] && starts[0] == 0 && forall i, j :: 0 <= i <= j < |starts| ==> starts[i] <= starts[j]
  }

  lemma {:induction false} AscendTo(cs: seq<Child>, starts: seq<nat>, i: nat, j: nat)
    requires Laid(cs, starts) && i <= j < |starts|
    ensures starts[i] <= starts[j]
    decreases j
  {
    if i < j {
      AscendTo(cs, starts, i, j - 1);
      assert LaidAt(cs, starts, j - 1);
    }
  }

  lemma StartsAscend(cs: seq<Child>, starts: seq<nat>)
    requires Laid(cs, starts)
    ensures Ascending(starts)
  {
    forall i, j | 0 <= i <= j < |starts| ensures starts[i] <= starts[j] {
      AscendTo(cs, starts, i, j);
    }
  }

  /** Every character of a paragraph lies in one of its children. */
  lemma {:induction false} ChildAt(starts: seq<nat>, n: nat, p: nat) returns (c: nat)
    requires Ascending(starts) && n < |starts| && p < starts[n]
    ensures c < n && starts[c] <= p < starts[c + 1]
  {
    if p >= starts[n - 1] {
      c := n - 1;
    } else {
      c := ChildAt(starts, n - 1, p);
    }
  }

  predicate ClearAt(cs: seq<Child>, starts: seq<nat>, i: nat, e: Edit)
    requires i < |cs| && i + 1 < |starts|
  {
    cs[i].Run? || !MeetsAt(starts, i, e)
  }

  lemma {:induction false} UnobstructedAt(cs: seq<Child>, starts: seq<nat>, n: nat, e: Edit)
    requires Laid(cs, starts) && n <= |cs|
    ensures Unobstructed(cs[..n], e) <==> forall i :: 0 <= i < n ==> ClearAt(cs, starts, i, e)
  {
    if n > 0 {
      UnobstructedAt(cs, starts, n - 1, e);
      StartIsOffset(cs, starts, n - 1);
      assert cs[..n][..n - 1] == cs[..n - 1] && cs[..n][n - 1] == cs[n - 1];
      assert LaidAt(cs, starts, n - 1);
      assert Outside(cs[n - 1], Offset(cs, n - 1), e) <==> ClearAt(cs, starts, n - 1, e);
    }
  }

  // ---------------------------------------------------------------- what the selection decides

  ghost predicate PlainBetween(cs: seq<Child>, first: nat, last: nat) {
    forall i :: first <= i <= last && i < |cs| ==> cs[i].Run?
  }

  lemma PickedBetween(cs: seq<Child>, picks: seq<Pick>, i: nat)
    requires (forall k, l :: 0 <= k < l < |picks| ==> InOrder(cs, picks[k], picks[l])) && IsPicked(picks, i)
    ensures picks != [] && picks[0].child <= i <= picks[|picks| - 1].child
  {
    var k :| 0 <= k < |picks| && picks[k].child == i;
    assert k > 0 ==> InOrder(cs, picks[0], picks[k]);
    assert k < |picks| - 1 ==> InOrder(cs, picks[k], picks[|picks| - 1]);
  }

  lemma Before(starts: seq<nat>, i: nat, j: nat)
    requires Ascending(starts) && i + 1 < |starts| && j < |starts|
    ensures i < j ==> starts[i + 1] <= starts[j]
  {}

  /** A child that meets the range lies between the first and the last selected child. */
  lemma MeetingIsBetween(cs: seq<Child>, starts: seq<nat>, picks: seq<Pick>, e: Edit, i: nat)
    requires |starts| == |cs| + 1 && Ascending(starts) && e.start < e.end <= starts[|cs|]
    requires Summary(cs, starts, |cs|, picks, e) && i < |cs| && MeetsAt(starts, i, e)
    ensures picks != [] && picks[0].child <= i <= picks[|picks| - 1].child
  {
    var a := ChildAt(starts, |cs|, e.start);
    var b := ChildAt(starts, |cs|, e.end - 1);
    assert Covered(cs, starts, picks, a, e) && Covered(cs, starts, picks, b, e);
    PickedBetween(cs, picks, a);
    PickedBetween(cs, picks, b);
    Before(starts, i, a);
    Before(starts, b, i);
  }

  /** A child between the first and the last selected one meets the range. */
  lemma BetweenMeets(cs: seq<Child>, starts: seq<nat>, picks: seq<Pick>, e: Edit, i: nat)
    requires |starts| == |cs| + 1 && Ascending(starts) && e.start < e.end && picks != []
    requires Summary(cs, starts, |cs|, picks, e) && picks[0].child <= i <= picks[|picks| - 1].child
    ensures i < |cs| && MeetsAt(starts, i, e)
  {
    var first, last := picks[0].child, picks[|picks| - 1].child;
    assert Placed(cs, starts, picks[0], |cs|, e) && Placed(cs, starts, picks[|picks| - 1], |cs|, e);
    assert starts[first + 1] <= starts[i + 1] && starts[i] <= starts[last];
  }

  /** The check on the children between the first and the last selected node is the paragraph's own condition. */
  lemma SelectionDecides(cs: seq<Child>, starts: seq<nat>, picks: seq<Pick>, e: Edit)
    requires Laid(cs, starts) && e.start < e.end <= |Text(cs)| && Summary(cs, starts, |cs|, picks, e)
    ensures picks != []
    ensures PlainBetween(cs, picks[0].child, picks[|picks| - 1].child) <==> Unobstructed(cs, e)
  {
    StartsAscend(cs, starts);
    EndIsLength(cs, starts);
    assert cs[..|cs|] == cs;
    UnobstructedAt(cs, starts, |cs|, e);
    var a := ChildAt(starts, |cs|, e.start);
    MeetingIsBetween(cs, starts, picks, e, a);
    var first, last := picks[0].child, picks[|picks| - 1].child;
    if PlainBetween(cs, first, last) {
      forall i | 0 <= i < |cs| ensures ClearAt(cs, starts, i, e) {
        if MeetsAt(starts, i, e) {
          MeetingIsBetween(cs, starts, picks, e, i);
        }
      }
    }
    if Unobstructed(cs, e) {
      forall i | first <= i <= last && i < |cs| ensures cs[i].Run? {
        BetweenMeets(cs, starts, picks, e, i);
        assert ClearAt(cs, starts, i, e);
      }
    }
  }

  /** The range starts in the first selected run, and before every other. */
  lemma FirstHoldsStart(cs: seq<Child>, starts: seq<nat>, picks: seq<Pick>, e: Edit, k: nat)
    requires |starts| == |cs| + 1 && Ascending(starts) && e.start < e.end <= starts[|cs|]
    requires Summary(cs, starts, |cs|, picks, e) && k < |picks| && cs[picks[0].child].Run?
    ensures starts[picks[k].child] <= e.start < starts[picks[k].child + 1] <==> k == 0
  {
    var a := ChildAt(starts, |cs|, e.start);
    MeetingIsBetween(cs, starts, picks, e, a);
    var first := picks[0].child;
    assert Placed(cs, starts, picks[0], |cs|, e);
    Before(starts, first, a);
    if k > 0 {
      assert InOrder(cs, picks[0], picks[k]);
      assert starts[first + 1] <= starts[picks[k].child];
    }
  }

  /** Children after the first `n` selected nodes have been rewritten. */
  ghost predicate Rewritten(was: seq<Child>, now: seq<Child>, goal: seq<Child>, picks: seq<Pick>, n: nat)
    requires n <= |picks|
  {
    && |now| == |was| == |goal|
    && forall i :: 0 <= i < |was| ==> now[i] == if IsPicked(picks[..n], i) then goal[i] else was[i]
  }

  lemma RewrittenStep(was: seq<Child>, now: seq<Child>, goal: seq<Child>, picks: seq<Pick>, n: nat)
    requires n < |picks| && Rewritten(was, now, goal, picks, n) && picks[n].child < |was|
    requires forall k :: 0 <= k < n ==> picks[k].child != picks[n].child
    ensures now[picks[n].child] == was[picks[n].child]
    ensures Rewritten(was, now[picks[n].child := goal[picks[n].child]], goal, picks, n + 1)
  {
    var c := picks[n].child;
    var fewer, more := picks[..n], picks[..n + 1];
    assert more[n].child == c;
    forall i | 0 <= i < |was| && i != c ensures IsPicked(more, i) <==> IsPicked(fewer, i) {
      if IsPicked(fewer, i) {
        var k :| 0 <= k < n && fewer[k].child == i;
        assert more[k].child == i;
      }
      if IsPicked(more, i) {
        var k :| 0 <= k < n + 1 && more[k].child == i;
        assert fewer[k].child == i;
      }
    }
    assert !IsPicked(fewer, c);
  }

  lemma DistinctRuns(cs: seq<Child>, starts: seq<nat>, picks: seq<Pick>, e: Edit)
    requires |starts| == |cs| + 1 && Summary(cs, starts, |cs|, picks, e)
    requires forall l :: 0 <= l < |picks| ==> picks[l].child < |cs| && cs[picks[l].child].Run?
    ensures forall k, l :: 0 <= l < k < |picks| ==> picks[l].child != picks[k].child
  {
    forall k, l | 0 <= l < k < |picks| ensures picks[l].child != picks[k].child {
      assert InOrder(cs, picks[l], picks[k]);
    }
  }

  lemma UnpickedStays(cs: seq<Child>, starts: seq<nat>, picks: seq<Pick>, e: Edit, i: nat)
    requires Laid(cs, starts) && e.start < e.end && Summary(cs, starts, |cs|, picks, e)
    requires i < |cs| && !IsPicked(picks, i)
    ensures Rewrite(cs, Splicer(e))[i] == cs[i]
  {
    RewriteAt(cs, Splicer(e), i);
    StartIsOffset(cs, starts, i);
    if cs[i].Run? {
      assert Covered(cs, starts, picks, i, e) && LaidAt(cs, starts, i);
      SpliceOutside(cs[i].text, Offset(cs, i), e);
    }
  }

  /** A run is selected exactly when its text meets the range. */
  lemma RunPickedIff(cs: seq<Child>, starts: seq<nat>, picks: seq<Pick>, e: Edit, i: nat)
    requires Laid(cs, starts) && Summary(cs, starts, |cs|, picks, e) && i < |cs| && cs[i].Run?
    ensures IsPicked(picks, i) <==> Meets(Offset(cs, i), |ChildText(cs[i])|, e)
  {
    StartIsOffset(cs, starts, i);
    assert LaidAt(cs, starts, i) && Covered(cs, starts, picks, i, e);
    if IsPicked(picks, i) {
      var k :| 0 <= k < |picks| && picks[k].child == i;
      assert Placed(cs, starts, picks[k], |cs|, e);
    }
  }

  lemma RewrittenAll(was: seq<Child>, now: seq<Child>, goal: seq<Child>, picks: seq<Pick>)
    requires Rewritten(was, now, goal, picks, |picks|)
    requires forall i :: 0 <= i < |was| && !IsPicked(picks, i) ==> goal[i] == was[i]
    ensures now == goal
  {
    assert picks[..|picks|] == picks;
  }

  /** A selected node's new text: what lies before the range, the new text in the first node, what lies after. */
  function Replaced(text: string, offset: nat, inserted: string, e: Edit): string
    requires Meets(offset, |text|, e)
  {
    var left := if e.start - offset > 0 then e.start - offset else 0;
    var right := if |text| < e.end - offset then |text| else e.end - offset;
    text[..left] + inserted + text[right..]
  }

  ghost predicate ReplacedAt(cs: seq<Child>, picks: seq<Pick>, goal: seq<Child>, e: Edit, k: nat)
    requires |goal| == |cs| && k < |picks|
  {
    var c, offset := picks[k].child, picks[k].offset;
    && c < |cs| && cs[c].Run? && Meets(offset, |cs[c].text|, e)
    && goal[c] == Run(cs[c].format, Replaced(cs[c].text, offset, if k == 0 then e.after else "", e))
  }

  /** What replacing the texts of the selected nodes gives. */
  ghost predicate Goal(cs: seq<Child>, picks: seq<Pick>, goal: seq<Child>, e: Edit) {
    && |goal| == |cs|
    && (forall k :: 0 <= k < |picks| ==> ReplacedAt(cs, picks, goal, e, k))
    && forall i :: 0 <= i < |cs| && !IsPicked(picks, i) ==> goal[i] == cs[i]
  }

  lemma ReplacementIsSplice(cs: seq<Child>, starts: seq<nat>, picks: seq<Pick>, e: Edit, k: nat)
    requires Laid(cs, starts) && e.start < e.end <= |Text(cs)| && Summary(cs, starts, |cs|, picks, e)
    requires k < |picks| && picks[0].child < |cs| && cs[picks[0].child].Run?
    requires picks[k].child < |cs| && cs[picks[k].child].Run?
    ensures ReplacedAt(cs, picks, Rewrite(cs, Splicer(e)), e, k)
  {
    var c := picks[k].child;
    assert Placed(cs, starts, picks[k], |cs|, e);
    StartsAscend(cs, starts);
    EndIsLength(cs, starts);
    FirstHoldsStart(cs, starts, picks, e, k);
    RewriteAt(cs, Splicer(e), c);
    StartIsOffset(cs, starts, c);
    assert LaidAt(cs, starts, c);
  }

  lemma GoalIsRewrite(cs: seq<Child>, starts: seq<nat>, picks: seq<Pick>, e: Edit)
    requires Laid(cs, starts) && e.start < e.end <= |Text(cs)| && Summary(cs, starts, |cs|, picks, e)
    requires forall k :: 0 <= k < |picks| ==> picks[k].child < |cs| && cs[picks[k].child].Run?
    ensures Goal(cs, picks, Rewrite(cs, Splicer(e)), e)
  {
    forall k | 0 <= k < |picks| ensures ReplacedAt(cs, picks, Rewrite(cs, Splicer(e)), e, k) {
      ReplacementIsSplice(cs, starts, picks, e, k);
    }
    forall i | 0 <= i < |cs| && !IsPicked(picks, i) ensures Rewrite(cs, Splicer(e))[i] == cs[i] {
      UnpickedStays(cs, starts, picks, e, i);
    }
  }

  // ---------------------------------------------------------------- edits relative to a run

  function Shift(e: Edit, offset: nat): Edit {
    Edit(e.start + offset, e.end + offset, e.before, e.after)
  }

  /** The edit an edit request stands for, if it names a run and a range of it. */
  function Resolution(cs: seq<Child>, run: Option<nat>, e: Edit): Option<Edit> {
    if e.start >= e.end then None
    else if run.None? then Some(e)
    else
      var runs := Runs(cs);
      if run.value < |runs| && e.end <= Length(runs[run.value].nodes) then Some(Shift(e, Counted(runs, run.value)))
      else None
  }

  /**
   A run-relative edit resolves to the range it names in the run exactly when as much text is missed before
   the run, outside all runs, as is counted more than once or too early, in runs that lie in each other.
   */
  lemma RunRelativeEdit(cs: seq<Child>, r: nat, e: Edit)
    requires Resolution(cs, Some(r), e).Some?
    ensures r < |Runs(cs)|
    ensures Resolution(cs, Some(r), e).value == Shift(e, RunStart(cs, r)) <==>
              MissedBefore(cs, r) == RepeatedBefore(cs, r)
  {
    CountedStart(cs, r);
  }

  lemma SliceOfSlice(all: string, start: nat, text: string, i: nat, j: nat)
    requires start + |text| <= |all| && all[start..start + |text|] == text && i <= j <= |text|
    ensures all[start + i..start + j] == text[i..j]
  {
    forall k | i <= k < j ensures all[start + k] == text[k] {
      assert all[start..start + |text|][k] == text[k];
    }
  }

  /** Where a run starts, the paragraph's text reads as the run's. */
  lemma RunStartsThere(cs: seq<Child>, r: nat, i: nat, j: nat)
    requires r < |Runs(cs)| && i <= j <= Length(Runs(cs)[r].nodes)
    ensures RunStart(cs, r) + j <= |Text(cs)|
    ensures Text(cs)[RunStart(cs, r) + i..RunStart(cs, r) + j] == Join(Runs(cs)[r].nodes)[i..j]
  {
    RunReadsThere(cs, r);
    SliceOfSlice(Text(cs), RunStart(cs, r), Join(Runs(cs)[r].nodes), i, j);
  }

  /** Something that is not a plain run and holds one text node, and then a run. */
  lemma StructureThenRun(first: Child, held: string, text: string, e: Edit)
    requires !first.Run? && Nodes(first) == [held] && |held| <= e.start
    ensures Text([first, Run("", text)]) == held + text && Unobstructed([first, Run("", text)], e)
  {
    var one, both := [first], [first, Run("", text)];
    JoinOne(held);
    assert one[..0] == [] && both[..1] == one;
    assert Text([]) == "" && Text(one) == ChildText(first) == held;
    assert Unobstructed([], e) && Unobstructed(one, e);
  }

  lemma EditedTo(cs: seq<Child>, e: Edit, left: string, right: string)
    requires Unobstructed(cs, e) && Text(cs) == left + e.before + right && e.before != ""
    requires e.start == |left| && e.end == |left| + |e.before|
    ensures Accepts(cs, e) && Text(Edited(cs, e)) == left + e.after + right
  {
    var text := Text(cs);
    assert text[..e.start] == left && text[e.start..e.end] == e.before && text[e.end..] == right;
    ExactSplice(cs, e);
  }

  lemma ListedTwo(a: Child, b: Child)
    ensures Listed([a, b]) == Kids(a, Kids(b, NoKids))
  {
    assert [a, b][1..] == [b] && [b][1..] == [];
    assert Listed([b]) == Kids(b, NoKids);
  }

  /** A bare text node before a run: the request names the run's second character and changes its first. */
  lemma RunRelativeEditMisses(cs: seq<Child>, e: Edit)
    requires cs == [Structure(TextTag("x"), NoKids), Run("", "aab")] && e == Edit(1, 2, "a", "c")
    ensures Resolution(cs, Some(0), e) == Some(e) && Accepts(cs, e)
    ensures Text(Edited(cs, e)) == "x" + "c" + "ab"
  {
    ListedTwo(cs[0], cs[1]);
    JoinOne("aab");
    assert Runs(cs) == [RunAt(["aab"], 1)] && Counted(Runs(cs), 0) == 0;
    StructureThenRun(cs[0], "x", "aab", e);
    EditedTo(cs, e, "x", "ab");
  }

  /** A run whose text box holds a paragraph with a run of its own. */
  function TextBox(text: string): Child {
    var paragraph := Structure(ParagraphTag, Kids(Run("", text), NoKids));
    Structure(RunTag, Kids(Structure(OtherTag, Kids(paragraph, NoKids)), NoKids))
  }

  lemma TextBoxHolds(text: string)
    ensures Nodes(TextBox(text)) == [text]
    ensures RunsIn(TextBox(text), 0) == [RunAt([text], 0), RunAt([text], 0)]
  {
    var paragraph := Structure(ParagraphTag, Kids(Run("", text), NoKids));
    var box := Structure(OtherTag, Kids(paragraph, NoKids));
    assert KidsNodes(Kids(Run("", text), NoKids)) == [text]
           && KidsRuns(Kids(Run("", text), NoKids), 0) == [RunAt([text], 0)];
    assert Nodes(paragraph) == [text] && RunsIn(paragraph, 0) == [RunAt([text], 0)];
    assert KidsNodes(Kids(paragraph, NoKids)) == [text] && KidsRuns(Kids(paragraph, NoKids), 0) == [RunAt([text], 0)];
    assert Nodes(box) == [text] && RunsIn(box, 0) == [RunAt([text], 0)];
    assert KidsNodes(Kids(box, NoKids)) == [text] && KidsRuns(Kids(box, NoKids), 0) == [RunAt([text], 0)];
  }

  lemma CountTwo(a: RunAt, b: RunAt, c: RunAt)
    ensures Counted([a, b, c], 2) == Length(a.nodes) + Length(b.nodes)
  {
    assert Counted([a, b, c], 1) == Length(a.nodes);
  }

  lemma BoxThenRun(cs: seq<Child>, e: Edit)
    requires cs == [TextBox("a"), Run("", "aab")] && e.start < e.end <= 3
    ensures Resolution(cs, Some(2), e) == Some(Shift(e, 2))
  {
    ListedTwo(cs[0], cs[1]);
    TextBoxHolds("a");
    JoinOne("a");
    JoinOne("aab");
    var box, run := RunAt(["a"], 0), RunAt(["aab"], 1);
    assert Runs(cs) == [box, box, run];
    CountTwo(box, box, run);
  }

  /**
   A text box before a run, and no text outside runs: the text in the box counts twice, and the request for
   the first character of the last run changes its second.
   */
  lemma RunRelativeEditCountsTwice(cs: seq<Child>, e: Edit)
    requires cs == [TextBox("a"), Run("", "aab")] && e == Edit(0, 1, "a", "c")
    ensures Resolution(cs, Some(2), e) == Some(Shift(e, 2)) && Accepts(cs, Shift(e, 2))
    ensures Text(Edited(cs, Shift(e, 2))) == "aa" + "c" + "b"
  {
    BoxThenRun(cs, e);
    TextBoxHolds("a");
    StructureThenRun(cs[0], "a", "aab", Shift(e, 2));
    EditedTo(cs, Shift(e, 2), "aa", "b");
  }

  lemma MergeNext(cs: seq<Child>, n: nat)
    requires n < |cs|
    ensures Merge(cs[..n + 1]) == Push(Merge(cs[..n]), cs[n])
  {
    assert cs[..n + 1][..n] == cs[..n];
  }

  lemma UpdateLast(cs: seq<Child>, c: Child)
    requires cs != []
    ensures cs[|cs| - 1 := c] == cs[..|cs| - 1] + [c]
  {}

  // ---------------------------------------------------------------- the operations

  class Document {
    var body: Kids

    constructor (body: Kids)
      ensures this.body == body
    {
      this.body := body;
    }

    function ParagraphCount(): nat
      reads this
    {
      |Paragraphs(body)|
    }

    /** The elements of a paragraph; one in a text box comes after the paragraph around it. */
    function Paragraph(p: nat): seq<Child>
      requires p < ParagraphCount()
      reads this
    {
      Children(Paragraphs(body)[p])
    }

    /** Gives a paragraph other contents with the same paragraphs inside. */
    method Put(p: nat, now: seq<Child>)
      requires p < ParagraphCount() && Within(now) == Within(Paragraph(p))
      modifies this
      ensures body == KidsWith(old(body), p, Listed(now))
      ensures ChangedAt(old(Paragraphs(body)), Paragraphs(body), p, Listed(now)) && Paragraph(p) == now
    {
      ChildrenListed(now);
      KidsParagraphsWith(body, p, Listed(now));
      body := KidsWith(body, p, Listed(now));
    }

    /** The text nodes that overlap the range, with where they start. */
    method Select(cs: seq<Child>, e: Edit) returns (picks: seq<Pick>, ghost starts: seq<nat>)
      requires e.start < e.end
      ensures Laid(cs, starts) && picks == Selected(cs, starts, |cs|, e)
      ensures forall i :: 0 <= i < |cs| && cs[i].Run? ==>
                (IsPicked(picks, i) <==> Meets(Offset(cs, i), |ChildText(cs[i])|, e))
    {
      picks, starts := [], [0];
      var offset := 0;
      for i := 0 to |cs|
        invariant LaidTo(cs, starts, i) && offset == starts[i] && picks == Selected(cs, starts, i, e)
      {
        var found;
        TextIsNodes(cs[i]);
        found, offset := SelectIn(Nodes(cs[i]), i, offset, e);
        LaidStep(cs, starts, i, offset);
        SelectedStep(cs, starts, i, offset, e);
        picks, starts := picks + found, starts + [offset];
      }
      SelectedFacts(cs, starts, |cs|, e);
      forall i | 0 <= i < |cs| && cs[i].Run?
        ensures IsPicked(picks, i) <==> Meets(Offset(cs, i), |ChildText(cs[i])|, e)
      {
        RunPickedIff(cs, starts, picks, e, i);
      }
    }

    method SelectIn(texts: seq<string>, child: nat, start: nat, e: Edit) returns (picks: seq<Pick>, offset: nat)
      ensures picks == Picked(texts, child, start, e) && offset == start + |Join(texts)|
    {
      picks, offset := [], start;
      for j := 0 to |texts|
        invariant picks == Picked(texts[..j], child, start, e) && offset == start + |Join(texts[..j])|
      {
        assert texts[..j + 1][..j] == texts[..j];
        if offset < e.end && offset + |texts[j]| > e.start {
          picks := picks + [Pick(child, offset)];
        }
        offset := offset + |texts[j]|;
      }
      assert texts[..|texts|] == texts;
    }

    /** Every selected node must be a run's, and every child between the first and the last a run. */
    method CheckSelection(cs: seq<Child>, ghost starts: seq<nat>, picks: seq<Pick>, e: Edit) returns (ok: bool)
      requires Laid(cs, starts) && e.start < e.end <= |Text(cs)| && Summary(cs, starts, |cs|, picks, e)
      ensures ok <==> Unobstructed(cs, e)
      ensures ok ==> forall k :: 0 <= k < |picks| ==> picks[k].child < |cs| && cs[picks[k].child].Run?
    {
      SelectionDecides(cs, starts, picks, e);
      var first, last := picks[0].child, picks[|picks| - 1].child;
      forall k | 0 <= k < |picks| ensures first <= picks[k].child <= last < |cs| {
        assert IsPicked(picks, picks[k].child);
        PickedBetween(cs, picks, picks[k].child);
      }
      for k := 0 to |picks|
        invariant forall l :: 0 <= l < k ==> cs[picks[l].child].Run?
      {
        if !cs[picks[k].child].Run? {
          return false;
        }
      }
      for c := first to last + 1
        invariant forall i :: first <= i < c ==> cs[i].Run?
      {
        if !cs[c].Run? {
          return false;
        }
      }
      return true;
    }

    /**
     Applies an edit to a paragraph, or refuses it and changes nothing. Of the other paragraphs exactly those
     around it change, and in them only what it is.
     */
    method ApplyEdit(p: nat, e: Edit) returns (ok: bool)
      requires e.start < e.end
      modifies this
      ensures ok <==> p < old(ParagraphCount()) && Accepts(old(Paragraph(p)), e)
      ensures !ok ==> body == old(body)
      ensures ok ==> ParagraphCount() == old(ParagraphCount()) && Paragraph(p) == Edited(old(Paragraph(p)), e)
      ensures ok ==> body == KidsWith(old(body), p, Listed(Edited(old(Paragraph(p)), e)))
      ensures ok ==> ChangedAt(old(Paragraphs(body)), Paragraphs(body), p, Listed(Edited(old(Paragraph(p)), e)))
    {
      if p >= ParagraphCount() {
        return false;
      }
      var cs := Paragraph(p);
      var text := Text(cs);
      if e.end > |text| || text[e.start..e.end] != e.before {
        return false;
      }
      var picks, starts := Select(cs, e);
      SelectedFacts(cs, starts, |cs|, e);
      ok := CheckSelection(cs, starts, picks, e);
      if !ok {
        return;
      }
      if e.before == e.after {
        KidsParagraphsWith(body, p, Paragraphs(body)[p]);
        WithSame(body, p);
        return;
      }
      RewriteWithin(cs, Splicer(e));
      cs := ReplaceTexts(cs, starts, picks, e);
      Put(p, cs);
    }

    /** Replaces the texts of the selected nodes one by one; the first takes the new text. */
    method ReplaceTexts(cs: seq<Child>, ghost starts: seq<nat>, picks: seq<Pick>, e: Edit) returns (now: seq<Child>)
      requires Laid(cs, starts) && e.start < e.end <= |Text(cs)| && Summary(cs, starts, |cs|, picks, e)
      requires forall k :: 0 <= k < |picks| ==> picks[k].child < |cs| && cs[picks[k].child].Run?
      ensures now == Rewrite(cs, Splicer(e))
    {
      GoalIsRewrite(cs, starts, picks, e);
      DistinctRuns(cs, starts, picks, e);
      now := ReplaceEach(cs, picks, Rewrite(cs, Splicer(e)), e);
    }

    method ReplaceEach(cs: seq<Child>, picks: seq<Pick>, ghost goal: seq<Child>, e: Edit) returns (now: seq<Child>)
      requires Goal(cs, picks, goal, e)
      requires forall k, l :: 0 <= l < k < |picks| ==> picks[l].child != picks[k].child
      ensures now == goal
    {
      now := cs;
      for k := 0 to |picks|
        invariant Rewritten(cs, now, goal, picks, k)
      {
        assert ReplacedAt(cs, picks, goal, e, k);
        RewrittenStep(cs, now, goal, picks, k);
        var child := picks[k].child;
        var run := now[child];
        now := now[child := Run(run.format, Replaced(run.text, picks[k].offset, if k == 0 then e.after else "", e))];
      }
      RewrittenAll(cs, now, goal, picks);
    }

    /** Turns a request into an edit of the paragraph, trying the edit on a copy of the document. */
    method ResolveEdit(p: nat, run: Option<nat>, e: Edit) returns (r: Option<Edit>)
      ensures r.Some? <==> (p < ParagraphCount() && Resolution(Paragraph(p), run, e).Some?
                            && Accepts(Paragraph(p), Resolution(Paragraph(p), run, e).value))
      ensures r.Some? ==> r == Resolution(Paragraph(p), run, e)
    {
      if e.start >= e.end || p >= ParagraphCount() {
        return None;
      }
      var normalized := e;
      if run.Some? {
        var runs := Runs(Paragraph(p));
        if run.value >= |runs| || e.end > Length(runs[run.value].nodes) {
          return None;
        }
        var offset := 0;
        for i := 0 to run.value
          invariant offset == Counted(runs, i)
        {
          offset := offset + Length(runs[i].nodes);
        }
        normalized := Shift(e, offset);
      }
      var copy := new Document(body);
      var ok := copy.ApplyEdit(p, normalized);
      return if ok then Some(normalized) else None;
    }

    /** Merges adjacent runs of the same format, or refuses a paragraph with other structure. */
    method MergeEquivalentRuns(p: nat) returns (ok: bool)
      requires p < ParagraphCount()
      modifies this
      ensures ok <==> Mergeable(old(Paragraph(p)))
      ensures !ok ==> body == old(body)
      ensures ok ==> ParagraphCount() == old(ParagraphCount()) && Paragraph(p) == Merge(old(Paragraph(p)))
      ensures ok ==> ChangedAt(old(Paragraphs(body)), Paragraphs(body), p, Listed(Merge(old(Paragraph(p)))))
    {
      var cs := Paragraph(p);
      var i := 0;
      while i < |cs|
        invariant i <= |cs| && forall k :: 0 <= k < i ==> !cs[k].Structure?
      {
        if cs[i].Structure? {
          return false;
        }
        i := i + 1;
      }
      MergeWithin(cs);
      cs := MergeRuns(cs);
      Put(p, cs);
      return true;
    }

    /** The merging loop: a run joins the previous one if nothing came between and the formats agree. */
    method MergeRuns(cs: seq<Child>) returns (kept: seq<Child>)
      ensures kept == Merge(cs)
    {
      kept := [];
      var previous: Option<nat> := None;
      for n := 0 to |cs|
        invariant kept == Merge(cs[..n])
        invariant previous == if kept != [] && kept[|kept| - 1].Run? then Some(|kept| - 1) else None
      {
        MergeNext(cs, n);
        if !cs[n].Run? {
          previous := None;
          kept := kept + [cs[n]];
        } else if previous.Some? && kept[previous.value].format == cs[n].format {
          UpdateLast(kept, Run(cs[n].format, kept[previous.value].text + cs[n].text));
          kept := kept[previous.value := Run(cs[n].format, kept[previous.value].text + cs[n].text)];
        } else {
          previous := Some(|kept|);
          kept := kept + [cs[n]];
        }
      }
      assert cs[..|cs|] == cs;
    }
  }
}
