/**
 The elements of a document part as the DOCX oracle walks them: text nodes, runs and paragraphs in document
 order, however they lie in each other.
 */
module DocxTree {
  import opened DocxOracle

  // ---------------------------------------------------------------- text nodes

  /** Elements as a list, and back. */
  function Listed(cs: seq<Child>): Kids {
    if cs == [] then NoKids else Kids(cs[0], Listed(cs[1..]))
  }

  function Children(kids: Kids): (cs: seq<Child>)
    ensures Listed(cs) == kids
  {
    match kids
    case NoKids => []
    case Kids(first, more) =>
      assert ([first] + Children(more))[1..] == Children(more);
      [first] + Children(more)
  }

  lemma {:induction false} ChildrenListed(cs: seq<Child>)
    ensures Children(Listed(cs)) == cs
  {
    if cs != [] {
      ChildrenListed(cs[1..]);
    }
  }

  /** The text nodes of a paragraph. */
  function AllNodes(cs: seq<Child>): seq<string> {
    KidsNodes(Listed(cs))
  }

  lemma {:induction false} NodesSnoc(cs: seq<Child>, c: Child)
    ensures AllNodes(cs + [c]) == AllNodes(cs) + Nodes(c)
  {
    if cs == [] {
      assert ([] + [c])[1..] == [] && [] + [c] == [c];
      assert Listed([c]) == Kids(c, NoKids);
    } else {
      NodesSnoc(cs[1..], c);
      assert (cs + [c])[1..] == cs[1..] + [c] && (cs + [c])[0] == cs[0];
      assert Listed(cs + [c]) == Kids(cs[0], Listed(cs[1..] + [c]));
      Reassociate(Nodes(cs[0]), AllNodes(cs[1..]), Nodes(c));
    }
  }

  lemma {:induction false} JoinConcat(a: seq<string>, b: seq<string>)
    ensures Join(a + b) == Join(a) + Join(b)
  {
    if b == [] {
      assert a + b == a;
    } else {
      JoinConcat(a, b[..|b| - 1]);
      assert (a + b)[..|a + b| - 1] == a + b[..|b| - 1];
    }
  }

  lemma JoinOne(text: string)
    ensures Join([text]) == text
  {
    assert [text][..0] == [];
  }

  /** A child's text is that of its text nodes. */
  lemma TextIsNodes(c: Child)
    ensures ChildText(c) == Join(Nodes(c))
  {
    if c.Run? {
      JoinOne(c.text);
    }
  }

  /** The paragraph's text is that of all its text nodes. */
  lemma {:induction false} TextIsJoin(cs: seq<Child>)
    ensures Text(cs) == Join(AllNodes(cs))
  {
    if cs != [] {
      var init, c := cs[..|cs| - 1], cs[|cs| - 1];
      TextIsJoin(init);
      TextIsNodes(c);
      assert cs == init + [c];
      NodesSnoc(init, c);
      JoinConcat(AllNodes(init), Nodes(c));
    }
  }

  // ---------------------------------------------------------------- runs

  /** A run: its text nodes, and how many text nodes come before it. */
  datatype RunAt = RunAt(nodes: seq<string>, before: nat)

  /** The runs in document order, an outer one before those inside it; `at` text nodes come before. */
  function RunsIn(c: Child, at: nat): seq<RunAt> {
    match c
    case Run(_, text) => [RunAt([text], at)]
    case Properties(inside) => KidsRuns(inside, at)
    case Structure(tag, inside) =>
      (if tag.RunTag? then [RunAt(Nodes(c), at)] else []) + KidsRuns(inside, at + |OwnNodes(tag)|)
  }

  function KidsRuns(kids: Kids, at: nat): seq<RunAt> {
    match kids
    case NoKids => []
    case Kids(first, more) => RunsIn(first, at) + KidsRuns(more, at + |Nodes(first)|)
  }

  function Runs(cs: seq<Child>): seq<RunAt> {
    KidsRuns(Listed(cs), 0)
  }

  predicate Here(all: seq<string>, at: nat, part: seq<string>) {
    at + |part| <= |all| && all[at..at + |part|] == part
  }

  lemma HereSplits(all: seq<string>, at: nat, a: seq<string>, b: seq<string>)
    requires Here(all, at, a + b)
    ensures Here(all, at, a) && Here(all, at + |a|, b)
  {
    assert all[at..at + |a|] == (a + b)[..|a|];
    assert all[at + |a|..at + |a| + |b|] == (a + b)[|a|..];
  }

  /** A run's text nodes are those of `all` from its place on. */
  predicate LiesIn(all: seq<string>, run: RunAt) {
    Here(all, run.before, run.nodes)
  }

  ghost predicate AllLieIn(all: seq<string>, runs: seq<RunAt>) {
    forall k :: 0 <= k < |runs| ==> LiesIn(all, runs[k])
  }

  lemma LieConcat(all: seq<string>, a: seq<RunAt>, b: seq<RunAt>)
    requires AllLieIn(all, a) && AllLieIn(all, b)
    ensures AllLieIn(all, a + b)
  {}

  lemma {:induction false} RunsLieIn(all: seq<string>, c: Child, at: nat)
    requires Here(all, at, Nodes(c))
    ensures AllLieIn(all, RunsIn(c, at))
  {
    match c
    case Run(_, text) =>
    case Properties(inside) => KidsRunsLieIn(all, inside, at);
    case Structure(tag, inside) =>
      HereSplits(all, at, OwnNodes(tag), KidsNodes(inside));
      KidsRunsLieIn(all, inside, at + |OwnNodes(tag)|);
      LieConcat(all, if tag.RunTag? then [RunAt(Nodes(c), at)] else [], KidsRuns(inside, at + |OwnNodes(tag)|));
  }

  lemma {:induction false} KidsRunsLieIn(all: seq<string>, kids: Kids, at: nat)
    requires Here(all, at, KidsNodes(kids))
    ensures AllLieIn(all, KidsRuns(kids, at))
  {
    if kids.Kids? {
      HereSplits(all, at, Nodes(kids.first), KidsNodes(kids.more));
      RunsLieIn(all, kids.first, at);
      KidsRunsLieIn(all, kids.more, at + |Nodes(kids.first)|);
      LieConcat(all, RunsIn(kids.first, at), KidsRuns(kids.more, at + |Nodes(kids.first)|));
    }
  }

  // ---------------------------------------------------------------- which runs hold a text node

  /** A text node with the numbers of all runs around it. */
  datatype Marked = Marked(text: string, runs: set<nat>)

  function RunCount(c: Child): nat {
    |RunsIn(c, 0)|
  }

  /** The text nodes, marked: `around` are the runs around the element, `next` the number of the next run. */
  function Mark(c: Child, around: set<nat>, next: nat): seq<Marked> {
    match c
    case Run(_, text) => [Marked(text, around + {next})]
    case Properties(inside) => KidsMark(inside, around, next)
    case Structure(tag, inside) =>
      if tag.RunTag? then KidsMark(inside, around + {next}, next + 1)
      else (if tag.TextTag? then [Marked(tag.text, around)] else []) + KidsMark(inside, around, next)
  }

  function KidsMark(kids: Kids, around: set<nat>, next: nat): seq<Marked> {
    match kids
    case NoKids => []
    case Kids(first, more) => Mark(first, around, next) + KidsMark(more, around, next + RunCount(first))
  }

  function Marks(cs: seq<Child>): seq<Marked> {
    KidsMark(Listed(cs), {}, 0)
  }

  function Texts(marked: seq<Marked>): seq<string> {
    seq(|marked|, i requires 0 <= i < |marked| => marked[i].text)
  }

  lemma TextsConcat(a: seq<Marked>, b: seq<Marked>)
    ensures Texts(a + b) == Texts(a) + Texts(b)
  {}

  lemma {:induction false} MarkTexts(c: Child, around: set<nat>, next: nat)
    ensures Texts(Mark(c, around, next)) == Nodes(c)
  {
    match c
    case Run(_, text) =>
    case Properties(inside) => KidsMarkTexts(inside, around, next);
    case Structure(tag, inside) =>
      if tag.RunTag? {
        KidsMarkTexts(inside, around + {next}, next + 1);
      } else {
        KidsMarkTexts(inside, around, next);
        TextsConcat(if tag.TextTag? then [Marked(tag.text, around)] else [], KidsMark(inside, around, next));
      }
  }

  lemma {:induction false} KidsMarkTexts(kids: Kids, around: set<nat>, next: nat)
    ensures Texts(KidsMark(kids, around, next)) == KidsNodes(kids)
  {
    if kids.Kids? {
      MarkTexts(kids.first, around, next);
      KidsMarkTexts(kids.more, around, next + RunCount(kids.first));
      TextsConcat(Mark(kids.first, around, next), KidsMark(kids.more, around, next + RunCount(kids.first)));
    }
  }

  // ---------------------------------------------------------------- counting the text before a run

  function Length(nodes: seq<string>): nat {
    |Join(nodes)|
  }

  /** How much text run `q` holds. */
  function Held(marked: seq<Marked>, q: nat): nat {
    if marked == [] then 0
    else Held(marked[..|marked| - 1], q) + if q in marked[|marked| - 1].runs then |marked[|marked| - 1].text| else 0
  }

  lemma {:induction false} HeldConcat(a: seq<Marked>, b: seq<Marked>, q: nat)
    ensures Held(a + b, q) == Held(a, q) + Held(b, q)
  {
    if b == [] {
      assert a + b == a;
    } else {
      HeldConcat(a, b[..|b| - 1], q);
      assert (a + b)[..|a + b| - 1] == a + b[..|b| - 1];
    }
  }

  lemma HeldOne(m: Marked, q: nat)
    ensures Held([m], q) == if q in m.runs then |m.text| else 0
  {
    assert [m][..0] == [];
  }

  /** The runs of an element do not depend on where it stands. */
  predicate SameNodes(a: seq<RunAt>, b: seq<RunAt>) {
    |a| == |b| && forall k :: 0 <= k < |a| ==> a[k].nodes == b[k].nodes
  }

  lemma {:induction false} RunsAnywhere(c: Child, a: nat, b: nat)
    ensures SameNodes(RunsIn(c, a), RunsIn(c, b))
  {
    match c
    case Run(_, _) =>
    case Properties(inside) => KidsRunsAnywhere(inside, a, b);
    case Structure(tag, inside) => KidsRunsAnywhere(inside, a + |OwnNodes(tag)|, b + |OwnNodes(tag)|);
  }

  lemma {:induction false} KidsRunsAnywhere(kids: Kids, a: nat, b: nat)
    ensures SameNodes(KidsRuns(kids, a), KidsRuns(kids, b))
  {
    if kids.Kids? {
      RunsAnywhere(kids.first, a, b);
      KidsRunsAnywhere(kids.more, a + |Nodes(kids.first)|, b + |Nodes(kids.first)|);
    }
  }

  /** What run `q` holds of an element, if its own runs are numbered from `next`. */
  function HeldOf(nodes: seq<string>, runs: seq<RunAt>, around: set<nat>, next: nat, q: nat): nat {
    if q in around then Length(nodes) else if next <= q < next + |runs| then Length(runs[q - next].nodes) else 0
  }

  lemma HeldOfConcat(nodes: seq<string>, runs: seq<RunAt>, more: seq<string>, later: seq<RunAt>, around: set<nat>,
                     next: nat, q: nat)
    requires forall a :: a in around ==> a < next
    ensures HeldOf(nodes + more, runs + later, around, next, q)
         == HeldOf(nodes, runs, around, next, q) + HeldOf(more, later, around, next + |runs|, q)
  {
    JoinConcat(nodes, more);
  }

  /** A run holds all that is inside it. */
  lemma HeldOfRun(nodes: seq<string>, run: RunAt, runs: seq<RunAt>, around: set<nat>, next: nat, q: nat)
    requires run.nodes == nodes && forall a :: a in around ==> a < next
    ensures HeldOf(nodes, [run] + runs, around, next, q) == HeldOf(nodes, runs, around + {next}, next + 1, q)
  {}

  lemma HeldOfText(text: string, around: set<nat>, next: nat, q: nat)
    ensures Held([Marked(text, around)], q) == HeldOf([text], [], around, next, q)
  {
    HeldOne(Marked(text, around), q);
    JoinOne(text);
  }

  lemma {:induction false} HeldIs(c: Child, around: set<nat>, next: nat, q: nat, at: nat)
    requires forall a :: a in around ==> a < next
    ensures Held(Mark(c, around, next), q) == HeldOf(Nodes(c), RunsIn(c, at), around, next, q)
  {
    match c {
      case Run(_, text) =>
        HeldOfText(text, around + {next}, next + 1, q);
        HeldOfRun([text], RunAt([text], at), [], around, next, q);
      case Properties(inside) => KidsHeldIs(inside, around, next, q, at);
      case Structure(tag, inside) =>
        if tag.RunTag? {
          KidsHeldIs(inside, around + {next}, next + 1, q, at);
          assert Nodes(c) == KidsNodes(inside);
          HeldOfRun(Nodes(c), RunAt(Nodes(c), at), KidsRuns(inside, at), around, next, q);
        } else if tag.TextTag? {
          KidsHeldIs(inside, around, next, q, at + 1);
          HeldConcat([Marked(tag.text, around)], KidsMark(inside, around, next), q);
          HeldOfText(tag.text, around, next, q);
          HeldOfConcat([tag.text], [], KidsNodes(inside), KidsRuns(inside, at + 1), around, next, q);
        } else {
          KidsHeldIs(inside, around, next, q, at);
          assert Nodes(c) == KidsNodes(inside) && RunsIn(c, at) == KidsRuns(inside, at);
          assert Mark(c, around, next) == KidsMark(inside, around, next);
        }
    }
  }

  lemma HeldJoins(own: seq<Marked>, rest: seq<Marked>, nodes: seq<string>, runs: seq<RunAt>, more: seq<string>,
                  later: seq<RunAt>, around: set<nat>, next: nat, q: nat)
    requires forall a :: a in around ==> a < next
    requires Held(own, q) == HeldOf(nodes, runs, around, next, q)
    requires Held(rest, q) == HeldOf(more, later, around, next + |runs|, q)
    ensures Held(own + rest, q) == HeldOf(nodes + more, runs + later, around, next, q)
  {
    HeldConcat(own, rest, q);
    HeldOfConcat(nodes, runs, more, later, around, next, q);
  }

  lemma {:induction false} KidsHeldIs(kids: Kids, around: set<nat>, next: nat, q: nat, at: nat)
    requires forall a :: a in around ==> a < next
    ensures Held(KidsMark(kids, around, next), q) == HeldOf(KidsNodes(kids), KidsRuns(kids, at), around, next, q)
  {
    match kids
    case NoKids =>
    case Kids(c, more) =>
      var at', next' := at + |Nodes(c)|, next + RunCount(c);
      HeldIs(c, around, next, q, at);
      KidsHeldIs(more, around, next', q, at');
      RunsAnywhere(c, at, 0);
      HeldJoins(Mark(c, around, next), KidsMark(more, around, next'), Nodes(c), RunsIn(c, at), KidsNodes(more),
                KidsRuns(more, at'), around, next, q);
  }

  /** The oracle's own count: the lengths of the runs before run `r`. */
  function Counted(runs: seq<RunAt>, r: nat): nat
    requires r <= |runs|
  {
    if r == 0 then 0 else Counted(runs, r - 1) + Length(runs[r - 1].nodes)
  }

  /** How many of the first `r` runs hold a text node: as often it is counted. */
  function Times(runs: set<nat>, r: nat): nat {
    if r == 0 then 0 else Times(runs, r - 1) + if r - 1 in runs then 1 else 0
  }

  function CountedByNode(marked: seq<Marked>, r: nat): nat {
    if marked == [] then 0
    else CountedByNode(marked[..|marked| - 1], r) + Times(marked[|marked| - 1].runs, r) * |marked[|marked| - 1].text|
  }

  function HeldBelow(marked: seq<Marked>, r: nat): nat {
    if r == 0 then 0 else HeldBelow(marked, r - 1) + Held(marked, r - 1)
  }

  lemma {:induction false} HeldBelowSnoc(marked: seq<Marked>, r: nat)
    requires marked != []
    ensures HeldBelow(marked, r)
         == HeldBelow(marked[..|marked| - 1], r) + Times(marked[|marked| - 1].runs, r) * |marked[|marked| - 1].text|
  {
    if r > 0 {
      HeldBelowSnoc(marked, r - 1);
      OnceMore(Times(marked[|marked| - 1].runs, r - 1), |marked[|marked| - 1].text|);
    }
  }

  lemma OnceMore(n: nat, length: nat)
    ensures (n + 1) * length == n * length + length
  {}

  /** Counting run by run is counting text node by text node. */
  lemma {:induction false} Regroup(marked: seq<Marked>, r: nat)
    ensures HeldBelow(marked, r) == CountedByNode(marked, r)
  {
    if marked == [] {
      NothingHeld(r);
    } else {
      Regroup(marked[..|marked| - 1], r);
      HeldBelowSnoc(marked, r);
    }
  }

  lemma {:induction false} NothingHeld(r: nat)
    ensures HeldBelow([], r) == 0
  {
    if r > 0 {
      NothingHeld(r - 1);
    }
  }

  lemma {:induction false} CountedIsHeld(cs: seq<Child>, r: nat)
    requires r <= |Runs(cs)|
    ensures Counted(Runs(cs), r) == HeldBelow(Marks(cs), r)
  {
    if r > 0 {
      CountedIsHeld(cs, r - 1);
      KidsHeldIs(Listed(cs), {}, 0, r - 1, 0);
    }
  }

  /** Text before the `k`-th text node that lies in none of the first `r` runs. */
  function Missed(marked: seq<Marked>, k: nat, r: nat): nat {
    if marked == [] then 0
    else
      var init, m := marked[..|marked| - 1], marked[|marked| - 1];
      Missed(init, k, r) + if |init| < k && Times(m.runs, r) == 0 then |m.text| else 0
  }

  /** Text counted too often: before the `k`-th text node beyond the first time, and from there on at all. */
  function Repeated(marked: seq<Marked>, k: nat, r: nat): nat {
    if marked == [] then 0
    else
      var init, m := marked[..|marked| - 1], marked[|marked| - 1];
      Repeated(init, k, r) + TooOften(Times(m.runs, r), |init| < k) * |m.text|
  }

  function TooOften(times: nat, before: bool): nat {
    if before && times > 0 then times - 1 else times
  }

  function LengthTo(marked: seq<Marked>, k: nat): nat {
    if marked == [] then 0
    else LengthTo(marked[..|marked| - 1], k) + if |marked| - 1 < k then |marked[|marked| - 1].text| else 0
  }

  lemma {:induction false} LengthToIs(marked: seq<Marked>, k: nat)
    ensures LengthTo(marked, k) == Length(Texts(marked)[..if k < |marked| then k else |marked|])
  {
    if marked != [] {
      var init, m := marked[..|marked| - 1], marked[|marked| - 1];
      LengthToIs(init, k);
      if k >= |marked| {
        assert Texts(marked)[..|marked|] == Texts(init)[..|init|] + [m.text];
      } else {
        assert Texts(marked)[..k] == Texts(init)[..k];
      }
    }
  }

  lemma {:induction false} CountsAgree(marked: seq<Marked>, k: nat, r: nat)
    ensures CountedByNode(marked, r) + Missed(marked, k, r) == LengthTo(marked, k) + Repeated(marked, k, r)
  {
    if marked != [] {
      var m := marked[|marked| - 1];
      CountsAgree(marked[..|marked| - 1], k, r);
      if Times(m.runs, r) > 0 {
        OnceMore(Times(m.runs, r) - 1, |m.text|);
      }
    }
  }

  /** Where run `r` starts in the paragraph's text. */
  function RunStart(cs: seq<Child>, r: nat): nat
    requires r < |Runs(cs)|
  {
    var k := Runs(cs)[r].before;
    Length(AllNodes(cs)[..if k < |AllNodes(cs)| then k else |AllNodes(cs)|])
  }

  function MissedBefore(cs: seq<Child>, r: nat): nat
    requires r < |Runs(cs)|
  {
    Missed(Marks(cs), Runs(cs)[r].before, r)
  }

  function RepeatedBefore(cs: seq<Child>, r: nat): nat
    requires r < |Runs(cs)|
  {
    Repeated(Marks(cs), Runs(cs)[r].before, r)
  }

  /**
   The oracle's offset of a run misses the text outside runs that precedes it, and counts again what lies in
   runs inside runs and what follows in the runs around it.
   */
  lemma CountedStart(cs: seq<Child>, r: nat)
    requires r < |Runs(cs)|
    ensures Counted(Runs(cs), r) + MissedBefore(cs, r) == RunStart(cs, r) + RepeatedBefore(cs, r)
  {
    var marked, k := Marks(cs), Runs(cs)[r].before;
    CountedIsHeld(cs, r);
    Regroup(marked, r);
    CountsAgree(marked, k, r);
    LengthToIs(marked, k);
    KidsMarkTexts(Listed(cs), {}, 0);
  }

  lemma JoinHere(all: seq<string>, at: nat, part: seq<string>)
    requires Here(all, at, part)
    ensures Length(all[..at]) + Length(part) <= Length(all)
    ensures Join(all)[Length(all[..at])..Length(all[..at]) + Length(part)] == Join(part)
  {
    var left, right := all[..at], all[at + |part|..];
    assert all == (left + part) + right;
    JoinConcat(left + part, right);
    JoinConcat(left, part);
  }

  /** Where a run starts, the paragraph's text reads as the run's. */
  lemma RunReadsThere(cs: seq<Child>, r: nat)
    requires r < |Runs(cs)|
    ensures RunStart(cs, r) + Length(Runs(cs)[r].nodes) <= |Text(cs)|
    ensures Text(cs)[RunStart(cs, r)..RunStart(cs, r) + Length(Runs(cs)[r].nodes)] == Join(Runs(cs)[r].nodes)
  {
    var all := AllNodes(cs);
    assert all[0..|all|] == all;
    KidsRunsLieIn(all, Listed(cs), 0);
    assert LiesIn(all, Runs(cs)[r]);
    JoinHere(all, Runs(cs)[r].before, Runs(cs)[r].nodes);
    TextIsJoin(cs);
  }

  // ---------------------------------------------------------------- paragraphs

  /** The paragraphs in document order, an outer one before those inside it. */
  function ParagraphsIn(c: Child): seq<Kids> {
    match c
    case Run(_, _) => []
    case Properties(inside) => Paragraphs(inside)
    case Structure(tag, inside) => (if tag.ParagraphTag? then [inside] else []) + Paragraphs(inside)
  }

  function Paragraphs(kids: Kids): seq<Kids> {
    match kids
    case NoKids => []
    case Kids(first, more) => ParagraphsIn(first) + Paragraphs(more)
  }

  /** The element with other contents of its paragraph number `p`. */
  function With(c: Child, p: nat, now: Kids): Child
    requires p < |ParagraphsIn(c)|
  {
    match c
    case Run(_, _) => c
    case Properties(inside) => Properties(KidsWith(inside, p, now))
    case Structure(tag, inside) =>
      if tag.ParagraphTag? && p == 0 then Structure(tag, now)
      else Structure(tag, KidsWith(inside, if tag.ParagraphTag? then p - 1 else p, now))
  }

  function KidsWith(kids: Kids, p: nat, now: Kids): Kids
    requires p < |Paragraphs(kids)|
  {
    var count := |ParagraphsIn(kids.first)|;
    if p < count then Kids(With(kids.first, p, now), kids.more)
    else Kids(kids.first, KidsWith(kids.more, p - count, now))
  }

  /** Paragraph `q` lies around paragraph `p`. */
  predicate Encloses(all: seq<Kids>, q: nat, p: nat)
    requires q < |all|
  {
    q < p <= q + |Paragraphs(all[q])|
  }

  function Expected(all: seq<Kids>, q: nat, p: nat, now: Kids): Kids
    requires q < |all|
  {
    if q == p then now else if Encloses(all, q, p) then KidsWith(all[q], p - q - 1, now) else all[q]
  }

  ghost predicate ChangedAt(was: seq<Kids>, will: seq<Kids>, p: nat, now: Kids) {
    |will| == |was| && forall q :: 0 <= q < |was| ==> will[q] == Expected(was, q, p, now)
  }

  /** Paragraphs inside one of the list are in the list. */
  ghost predicate Nested(all: seq<Kids>) {
    forall q :: 0 <= q < |all| ==> q + |Paragraphs(all[q])| < |all|
  }

  lemma NestedConcat(a: seq<Kids>, b: seq<Kids>)
    requires Nested(a) && Nested(b)
    ensures Nested(a + b)
  {
    forall q | 0 <= q < |a + b| ensures q + |Paragraphs((a + b)[q])| < |a + b| {
      assert q >= |a| ==> (a + b)[q] == b[q - |a|];
    }
  }

  lemma {:induction false} NestedIn(c: Child)
    ensures Nested(ParagraphsIn(c))
  {
    match c
    case Run(_, _) =>
    case Properties(inside) => KidsNested(inside);
    case Structure(tag, inside) => KidsNested(inside);
  }

  lemma {:induction false} KidsNested(kids: Kids)
    ensures Nested(Paragraphs(kids))
  {
    if kids.Kids? {
      NestedIn(kids.first);
      KidsNested(kids.more);
      NestedConcat(ParagraphsIn(kids.first), Paragraphs(kids.more));
    }
  }

  lemma ChangedBefore(was: seq<Kids>, will: seq<Kids>, rest: seq<Kids>, p: nat, now: Kids)
    requires p < |was| && ChangedAt(was, will, p, now)
    ensures ChangedAt(was + rest, will + rest, p, now)
  {
    forall q | 0 <= q < |was + rest| ensures (will + rest)[q] == Expected(was + rest, q, p, now) {
      if q < |was| {
        assert will[q] == Expected(was, q, p, now);
      }
    }
  }

  lemma ChangedAfter(start: seq<Kids>, was: seq<Kids>, will: seq<Kids>, p: nat, now: Kids)
    requires Nested(start) && ChangedAt(was, will, p, now)
    ensures ChangedAt(start + was, start + will, |start| + p, now)
  {
    forall q | 0 <= q < |start + was| ensures (start + will)[q] == Expected(start + was, q, |start| + p, now) {
      if q < |start| {
        assert q + |Paragraphs(start[q])| < |start|;
      } else {
        assert will[q - |start|] == Expected(was, q - |start|, p, now);
      }
    }
  }

  lemma {:induction false} ParagraphsWith(c: Child, p: nat, now: Kids)
    requires p < |ParagraphsIn(c)| && Paragraphs(now) == Paragraphs(ParagraphsIn(c)[p])
    ensures ChangedAt(ParagraphsIn(c), ParagraphsIn(With(c, p, now)), p, now)
  {
    match c
    case Run(_, _) =>
    case Properties(inside) => KidsParagraphsWith(inside, p, now);
    case Structure(tag, inside) =>
      if !tag.ParagraphTag? {
        KidsParagraphsWith(inside, p, now);
      } else if p > 0 {
        KidsParagraphsWith(inside, p - 1, now);
        ChangedInside(inside, KidsWith(inside, p - 1, now), p - 1, now);
      }
  }

  lemma ChangedInside(inside: Kids, after: Kids, p: nat, now: Kids)
    requires p < |Paragraphs(inside)| && after == KidsWith(inside, p, now)
    requires ChangedAt(Paragraphs(inside), Paragraphs(after), p, now)
    ensures ChangedAt([inside] + Paragraphs(inside), [after] + Paragraphs(after), p + 1, now)
  {
    var was, will := [inside] + Paragraphs(inside), [after] + Paragraphs(after);
    forall q | 0 <= q < |was| ensures will[q] == Expected(was, q, p + 1, now) {
      if q > 0 {
        assert Paragraphs(after)[q - 1] == Expected(Paragraphs(inside), q - 1, p, now);
      }
    }
  }

  /**
   Other contents for one paragraph, with the same paragraphs inside, change that paragraph and those around
   it, and no other.
   */
  lemma {:induction false} KidsParagraphsWith(kids: Kids, p: nat, now: Kids)
    requires p < |Paragraphs(kids)| && Paragraphs(now) == Paragraphs(Paragraphs(kids)[p])
    ensures ChangedAt(Paragraphs(kids), Paragraphs(KidsWith(kids, p, now)), p, now)
  {
    var first, rest := ParagraphsIn(kids.first), Paragraphs(kids.more);
    if p < |first| {
      ParagraphsWith(kids.first, p, now);
      ChangedBefore(first, ParagraphsIn(With(kids.first, p, now)), rest, p, now);
    } else {
      NestedIn(kids.first);
      KidsParagraphsWith(kids.more, p - |first|, now);
      ChangedAfter(first, rest, Paragraphs(KidsWith(kids.more, p - |first|, now)), p - |first|, now);
    }
  }

  lemma {:induction false} ElementSame(c: Child, p: nat)
    requires p < |ParagraphsIn(c)|
    ensures With(c, p, ParagraphsIn(c)[p]) == c
  {
    match c
    case Run(_, _) =>
    case Properties(inside) => WithSame(inside, p);
    case Structure(tag, inside) =>
      if !tag.ParagraphTag? {
        WithSame(inside, p);
      } else if p > 0 {
        WithSame(inside, p - 1);
      }
  }

  lemma {:induction false} WithSame(kids: Kids, p: nat)
    requires p < |Paragraphs(kids)|
    ensures KidsWith(kids, p, Paragraphs(kids)[p]) == kids
  {
    var first := ParagraphsIn(kids.first);
    if p < |first| {
      ElementSame(kids.first, p);
    } else {
      WithSame(kids.more, p - |first|);
    }
  }

  /** A paragraph around another changes exactly if that one does. */
  lemma AroundChanges(kids: Kids, p: nat, now: Kids)
    requires p < |Paragraphs(kids)| && Paragraphs(now) == Paragraphs(Paragraphs(kids)[p])
    ensures KidsWith(kids, p, now) == kids <==> now == Paragraphs(kids)[p]
  {
    KidsParagraphsWith(kids, p, now);
    WithSame(kids, p);
  }

  // ---------------------------------------------------------------- edits keep the paragraphs inside

  function Within(cs: seq<Child>): seq<Kids> {
    Paragraphs(Listed(cs))
  }

  lemma {:induction false} WithinSnoc(cs: seq<Child>, c: Child)
    ensures Within(cs + [c]) == Within(cs) + ParagraphsIn(c)
  {
    if cs == [] {
      assert [] + [c] == [c] && [c][1..] == [];
      assert Listed([c]) == Kids(c, NoKids);
    } else {
      WithinSnoc(cs[1..], c);
      assert (cs + [c])[1..] == cs[1..] + [c] && (cs + [c])[0] == cs[0];
      assert Listed(cs + [c]) == Kids(cs[0], Listed(cs[1..] + [c]));
      Reassociate(ParagraphsIn(cs[0]), Within(cs[1..]), ParagraphsIn(c));
    }
  }

  lemma {:induction false} RewriteWithin(cs: seq<Child>, f: Rewriter)
    ensures Within(Rewrite(cs, f)) == Within(cs)
  {
    if cs != [] {
      var init, c := cs[..|cs| - 1], cs[|cs| - 1];
      RewriteWithin(init, f);
      assert cs == init + [c];
      WithinSnoc(init, c);
      WithinSnoc(Rewrite(init, f), RewriteChild(c, |Text(init)|, f));
    }
  }

  lemma PushWithin(out: seq<Child>, c: Child)
    ensures Within(Push(out, c)) == Within(out) + ParagraphsIn(c)
  {
    if Joins(out, c) {
      var init, last := SplitLast(out);
      WithinSnoc(init, last);
      WithinSnoc(init, Run(last.format, last.text + c.text));
    } else {
      WithinSnoc(out, c);
    }
  }

  lemma {:induction false} MergeWithin(cs: seq<Child>)
    ensures Within(Merge(cs)) == Within(cs)
  {
    if cs != [] {
      var init, c := cs[..|cs| - 1], cs[|cs| - 1];
      MergeWithin(init);
      PushWithin(Merge(init), c);
      assert cs == init + [c];
      WithinSnoc(init, c);
    }
  }
}
