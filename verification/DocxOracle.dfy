/**
 The DOCX oracle's paragraph algebra: replacing a range of text that may span several formatted
 runs, and merging adjacent runs of the same format so that run splits do not matter.
 */
module DocxOracle {

  /** Everything of a run but its text: its attributes, its properties and its text's attributes. */
  type Format = string

  /** What an element is to the oracle. A text element carries its text. */
  datatype Tag = TextTag(text: string) | RunTag | ParagraphTag | OtherTag

  /**
   An element of the document. `Run` is a plain text run, `Properties` is `w:pPr`, and `Structure` anything
   else, runs with other content and whole paragraphs in a text box included.
   */
  datatype Child =
    | Run(format: Format, text: string)
    | Properties(inside: Kids)
    | Structure(tag: Tag, inside: Kids)

  /** The elements inside another, in order. */
  datatype Kids = NoKids | Kids(first: Child, more: Kids)

  datatype Edit = Edit(start: nat, end: nat, before: string, after: string)

  function Join(texts: seq<string>): string {
    if texts == [] then "" else Join(texts[..|texts| - 1]) + texts[|texts| - 1]
  }

  function OwnNodes(tag: Tag): seq<string> {
    if tag.TextTag? then [tag.text] else []
  }

  /** The text nodes of an element and of all that is inside it, in document order. */
  function Nodes(c: Child): seq<string> {
    match c
    case Run(_, text) => [text]
    case Properties(inside) => KidsNodes(inside)
    case Structure(tag, inside) => OwnNodes(tag) + KidsNodes(inside)
  }

  function KidsNodes(kids: Kids): seq<string> {
    match kids
    case NoKids => []
    case Kids(first, more) => Nodes(first) + KidsNodes(more)
  }

  function ChildText(c: Child): string {
    if c.Run? then c.text else Join(Nodes(c))
  }

  /** The text of a paragraph. */
  function Text(cs: seq<Child>): string {
    if cs == [] then "" else Text(cs[..|cs| - 1]) + ChildText(cs[|cs| - 1])
  }

  /** Where child `i` starts in the paragraph's text. */
  function Offset(cs: seq<Child>, i: nat): nat
    requires i <= |cs|
  {
    |Text(cs[..i])|
  }

  // ---------------------------------------------------------------- splicing

  function Clamp(n: int, limit: nat): (r: nat)
    ensures r <= limit
  {
    if n < 0 then 0 else if n > limit then limit else n
  }

  /** What a text at `offset` becomes: the part before the range, the new text if the range starts here, the rest. */
  function Splice(text: string, offset: nat, e: Edit): string
    requires e.start <= e.end
  {
    text[..Clamp(e.start - offset, |text|)]
    + (if offset <= e.start < offset + |text| then e.after else "")
    + text[Clamp(e.end - offset, |text|)..]
  }

  /** What a run's text at an offset becomes. */
  type Rewriter = (string, nat) -> string

  function Splicer(e: Edit): Rewriter
    requires e.start <= e.end
  {
    (text: string, offset: nat) => Splice(text, offset, e)
  }

  function RewriteChild(c: Child, offset: nat, f: Rewriter): Child {
    if c.Run? then Run(c.format, f(c.text, offset)) else c
  }

  /** Every run rewritten where it starts. */
  function Rewrite(cs: seq<Child>, f: Rewriter): (r: seq<Child>)
    ensures |r| == |cs|
  {
    if cs == [] then []
    else Rewrite(cs[..|cs| - 1], f) + [RewriteChild(cs[|cs| - 1], |Text(cs[..|cs| - 1])|, f)]
  }

  predicate AdditiveAt(f: Rewriter, a: string, b: string, offset: nat) {
    f(a + b, offset) == f(a, offset) + f(b, offset + |a|)
  }

  /** Rewriting a text is rewriting its parts. */
  ghost predicate Additive(f: Rewriter) {
    forall a: string, b: string, offset: nat :: AdditiveAt(f, a, b, offset)
  }

  /** A text of `length` characters at `offset` overlaps the range, or is empty and lies inside it. */
  predicate Meets(offset: nat, length: nat, e: Edit) {
    offset < e.end && offset + length > e.start
  }

  /** A child that is not a plain run must lie outside the range. */
  predicate Outside(c: Child, offset: nat, e: Edit) {
    c.Run? || !Meets(offset, |ChildText(c)|, e)
  }

  predicate Unobstructed(cs: seq<Child>, e: Edit) {
    cs == [] || (Unobstructed(cs[..|cs| - 1], e) && Outside(cs[|cs| - 1], |Text(cs[..|cs| - 1])|, e))
  }

  /** The edits a paragraph accepts. */
  predicate Accepts(cs: seq<Child>, e: Edit) {
    && e.start < e.end <= |Text(cs)|
    && Text(cs)[e.start..e.end] == e.before
    && Unobstructed(cs, e)
  }

  /** The paragraph after an accepted edit. */
  function Edited(cs: seq<Child>, e: Edit): seq<Child>
    requires e.start <= e.end
  {
    if e.before == e.after then cs else Rewrite(cs, Splicer(e))
  }

  // ---------------------------------------------------------------- merging

  predicate Mergeable(cs: seq<Child>) {
    forall i :: 0 <= i < |cs| ==> !cs[i].Structure?
  }

  /** A run of the same format as the last of `out`. */
  predicate Joins(out: seq<Child>, c: Child) {
    c.Run? && out != [] && out[|out| - 1].Run? && out[|out| - 1].format == c.format
  }

  function Push(out: seq<Child>, c: Child): seq<Child> {
    if Joins(out, c) then
      out[..|out| - 1] + [Run(c.format, out[|out| - 1].text + c.text)]
    else
      out + [c]
  }

  /** Adjacent runs of the same format become one. */
  function Merge(cs: seq<Child>): seq<Child> {
    if cs == [] then [] else Push(Merge(cs[..|cs| - 1]), cs[|cs| - 1])
  }

  // ---------------------------------------------------------------- the algebra

  lemma Snoc<T>(s: seq<T>, x: T)
    ensures (s + [x])[..|s + [x]| - 1] == s
    ensures (s + [x])[|s + [x]| - 1] == x
  {}

  lemma TextSnoc(cs: seq<Child>, c: Child)
    ensures Text(cs + [c]) == Text(cs) + ChildText(c)
  {
    Snoc(cs, c);
  }

  lemma ConcatEarly(a: string, b: string, offset: nat, e: Edit)
    requires e.start < e.end <= offset + |a|
    ensures Splice(a + b, offset, e) == Splice(a, offset, e) + b
  {
    assert (a + b)[Clamp(e.end - offset, |a + b|)..] == a[Clamp(e.end - offset, |a|)..] + b;
    assert (a + b)[..Clamp(e.start - offset, |a + b|)] == a[..Clamp(e.start - offset, |a|)];
  }

  lemma ConcatLate(a: string, b: string, offset: nat, e: Edit)
    requires offset + |a| <= e.start < e.end
    ensures Splice(a + b, offset, e) == a + Splice(b, offset + |a|, e)
  {
    assert (a + b)[..Clamp(e.start - offset, |a + b|)] == a + b[..Clamp(e.start - offset - |a|, |b|)];
    assert (a + b)[Clamp(e.end - offset, |a + b|)..] == b[Clamp(e.end - offset - |a|, |b|)..];
  }

  lemma ConcatAcross(a: string, b: string, offset: nat, e: Edit)
    requires e.start < offset + |a| < e.end
    ensures Splice(a + b, offset, e) == Splice(a, offset, e) + Splice(b, offset + |a|, e)
  {
    assert (a + b)[..Clamp(e.start - offset, |a + b|)] == a[..Clamp(e.start - offset, |a|)];
    assert (a + b)[Clamp(e.end - offset, |a + b|)..] == b[Clamp(e.end - offset - |a|, |b|)..];
  }

  /** Splicing a text is splicing its parts. */
  lemma SpliceConcat(a: string, b: string, offset: nat, e: Edit)
    requires e.start < e.end
    ensures Splice(a + b, offset, e) == Splice(a, offset, e) + Splice(b, offset + |a|, e)
  {
    if e.end <= offset + |a| {
      ConcatEarly(a, b, offset, e);
      SpliceOutside(b, offset + |a|, e);
    } else if offset + |a| <= e.start {
      ConcatLate(a, b, offset, e);
      SpliceOutside(a, offset, e);
    } else {
      ConcatAcross(a, b, offset, e);
    }
  }

  lemma SpliceOutside(text: string, offset: nat, e: Edit)
    requires e.start < e.end && !Meets(offset, |text|, e)
    ensures Splice(text, offset, e) == text
  {}

  lemma SplicerSplits(a: string, b: string, offset: nat, e: Edit)
    requires e.start < e.end
    ensures AdditiveAt(Splicer(e), a, b, offset)
  {
    SpliceConcat(a, b, offset, e);
  }

  lemma SplicerIsAdditive(e: Edit)
    requires e.start < e.end
    ensures Additive(Splicer(e))
  {
    var f := Splicer(e);
    forall a: string, b: string, offset: nat ensures AdditiveAt(f, a, b, offset) {
      SplicerSplits(a, b, offset, e);
    }
  }

  /** What an edit leaves alone: every child that is not a run. */
  predicate KeepsOthers(cs: seq<Child>, f: Rewriter) {
    cs == [] || (KeepsOthers(cs[..|cs| - 1], f)
                 && (cs[|cs| - 1].Run?
                      || f(ChildText(cs[|cs| - 1]), |Text(cs[..|cs| - 1])|) == ChildText(cs[|cs| - 1])))
  }

  lemma {:induction false} RewriteText(cs: seq<Child>, f: Rewriter)
    requires Additive(f) && KeepsOthers(cs, f) && f("", 0) == ""
    ensures Text(Rewrite(cs, f)) == f(Text(cs), 0)
  {
    if cs != [] {
      var init, c := cs[..|cs| - 1], cs[|cs| - 1];
      RewriteText(init, f);
      TextSnoc(Rewrite(init, f), RewriteChild(c, |Text(init)|, f));
      assert AdditiveAt(f, Text(init), ChildText(c), 0);
    }
  }

  lemma {:induction false} SplicerKeepsOthers(cs: seq<Child>, e: Edit)
    requires e.start < e.end && Unobstructed(cs, e)
    ensures KeepsOthers(cs, Splicer(e))
  {
    if cs != [] {
      SplicerKeepsOthers(cs[..|cs| - 1], e);
      if !cs[|cs| - 1].Run? {
        SpliceOutside(ChildText(cs[|cs| - 1]), |Text(cs[..|cs| - 1])|, e);
      }
    }
  }

  /** The text of the edited paragraph is the text with the range replaced. */
  lemma EditedText(cs: seq<Child>, e: Edit)
    requires e.start < e.end && Unobstructed(cs, e)
    ensures Text(Rewrite(cs, Splicer(e))) == Splice(Text(cs), 0, e)
  {
    SplicerIsAdditive(e);
    SplicerKeepsOthers(cs, e);
    RewriteText(cs, Splicer(e));
  }

  lemma SplicedText(text: string, e: Edit)
    requires e.start < e.end <= |text| && text[e.start..e.end] == e.before
    ensures Splice(text, 0, e) == text[..e.start] + e.after + text[e.end..]
    ensures e.before == e.after ==> text == text[..e.start] + e.after + text[e.end..]
  {}

  /**
   An accepted edit is an exact splice: the text changes in the range alone, and every child keeps
   its place, its format and, unless it is a run the range meets, its text.
   */
  lemma ExactSplice(cs: seq<Child>, e: Edit)
    requires Accepts(cs, e)
    ensures Text(Edited(cs, e)) == Text(cs)[..e.start] + e.after + Text(cs)[e.end..]
    ensures |Edited(cs, e)| == |cs|
    ensures forall i :: 0 <= i < |cs| ==>
            KeepsChild(cs[i], Edited(cs, e)[i], Meets(Offset(cs, i), |ChildText(cs[i])|, e))
  {
    SplicedText(Text(cs), e);
    if e.before != e.after {
      EditedText(cs, e);
    }
    forall i | 0 <= i < |cs| ensures KeepsChild(cs[i], Edited(cs, e)[i], Meets(Offset(cs, i), |ChildText(cs[i])|, e)) {
      ChildAfter(cs, e, i);
    }
  }

  predicate KeepsChild(was: Child, now: Child, inRange: bool) {
    if was.Run? && inRange then now.Run? && now.format == was.format else now == was
  }

  lemma ChildAfter(cs: seq<Child>, e: Edit, i: nat)
    requires e.start < e.end && i < |cs|
    ensures |Edited(cs, e)| == |cs|
    ensures KeepsChild(cs[i], Edited(cs, e)[i], Meets(Offset(cs, i), |ChildText(cs[i])|, e))
  {
    RewriteAt(cs, Splicer(e), i);
    if !Meets(Offset(cs, i), |ChildText(cs[i])|, e) {
      SpliceOutside(ChildText(cs[i]), Offset(cs, i), e);
    }
  }

  lemma {:induction false} RewriteAt(cs: seq<Child>, f: Rewriter, i: nat)
    requires i < |cs|
    ensures Rewrite(cs, f)[i] == RewriteChild(cs[i], Offset(cs, i), f)
  {
    var init := cs[..|cs| - 1];
    if i < |init| {
      RewriteAt(init, f, i);
      assert init[..i] == cs[..i];
    }
  }

  lemma Reassociate<T>(a: seq<T>, b: seq<T>, c: seq<T>)
    ensures (a + b) + c == a + (b + c)
  {}

  lemma PushText(out: seq<Child>, c: Child)
    ensures Text(Push(out, c)) == Text(out) + ChildText(c)
  {
    if Joins(out, c) {
      var init, last := out[..|out| - 1], out[|out| - 1];
      TextSnoc(init, Run(c.format, last.text + c.text));
      Reassociate(Text(init), last.text, c.text);
    } else {
      TextSnoc(out, c);
    }
  }

  lemma {:induction false} MergeText(cs: seq<Child>)
    ensures Text(Merge(cs)) == Text(cs)
  {
    if cs != [] {
      MergeText(cs[..|cs| - 1]);
      PushText(Merge(cs[..|cs| - 1]), cs[|cs| - 1]);
    }
  }

  lemma RewriteSnoc(cs: seq<Child>, c: Child, f: Rewriter)
    ensures Rewrite(cs + [c], f) == Rewrite(cs, f) + [RewriteChild(c, |Text(cs)|, f)]
  {
    Snoc(cs, c);
  }

  lemma PushJoins(out: seq<Child>, left: Child, right: Child)
    requires left.Run? && right.Run? && left.format == right.format
    ensures Push(out + [left], right) == out + [Run(left.format, left.text + right.text)]
  {
    Snoc(out, left);
  }

  lemma PushRuns(start: seq<Child>, format: Format, a: string, b: string)
    ensures Push(start + [Run(format, a)], Run(format, b)) == start + [Run(format, a + b)]
  {
    PushJoins(start, Run(format, a), Run(format, b));
  }

  lemma JoinRewrite(init: seq<Child>, format: Format, a: string, b: string, f: Rewriter)
    requires AdditiveAt(f, a, b, |Text(init)|)
    ensures Rewrite(init + [Run(format, a + b)], f)
         == Push(Rewrite(init + [Run(format, a)], f), Run(format, f(b, |Text(init)| + |a|)))
  {
    RewriteSnoc(init, Run(format, a), f);
    RewriteSnoc(init, Run(format, a + b), f);
    PushRuns(Rewrite(init, f), format, f(a, |Text(init)|), f(b, |Text(init)| + |a|));
  }

  lemma PushJoined(init: seq<Child>, format: Format, a: string, b: string, f: Rewriter)
    requires AdditiveAt(f, a, b, |Text(init)|)
    ensures var out := init + [Run(format, a)];
            Rewrite(Push(out, Run(format, b)), f) == Push(Rewrite(out, f), RewriteChild(Run(format, b), |Text(out)|, f))
  {
    PushRuns(init, format, a, b);
    TextSnoc(init, Run(format, a));
    assert |Text(init + [Run(format, a)])| == |Text(init)| + |a|;
    JoinRewrite(init, format, a, b, f);
  }

  lemma AppendRewrite(out: seq<Child>, c: Child, f: Rewriter)
    requires !Joins(out, c)
    ensures Rewrite(out + [c], f) == Push(Rewrite(out, f), RewriteChild(c, |Text(out)|, f))
  {
    RewriteSnoc(out, c, f);
  }

  lemma SplitLast(out: seq<Child>) returns (init: seq<Child>, last: Child)
    requires out != []
    ensures out == init + [last] && last == out[|out| - 1]
  {
    init, last := out[..|out| - 1], out[|out| - 1];
  }

  lemma PushRewrite(out: seq<Child>, c: Child, f: Rewriter)
    requires Additive(f)
    ensures Rewrite(Push(out, c), f) == Push(Rewrite(out, f), RewriteChild(c, |Text(out)|, f))
  {
    if Joins(out, c) {
      var init, left := SplitLast(out);
      assert AdditiveAt(f, left.text, c.text, |Text(init)|);
      PushJoined(init, left.format, left.text, c.text, f);
    } else {
      AppendRewrite(out, c, f);
    }
  }

  /** Any additive rewriting of the runs commutes with merging them. */
  lemma {:induction false} RewriteMerged(cs: seq<Child>, f: Rewriter)
    requires Additive(f)
    ensures Rewrite(Merge(cs), f) == Merge(Rewrite(cs, f))
  {
    if cs != [] {
      var init, c := cs[..|cs| - 1], cs[|cs| - 1];
      RewriteMerged(init, f);
      MergeText(init);
      PushRewrite(Merge(init), c, f);
      Snoc(Rewrite(init, f), RewriteChild(c, |Text(init)|, f));
    }
  }

  lemma PushUnobstructed(out: seq<Child>, c: Child, e: Edit)
    ensures Unobstructed(Push(out, c), e) <==> Unobstructed(out, e) && Outside(c, |Text(out)|, e)
  {
    if Push(out, c) == out + [c] {
      Snoc(out, c);
    } else {
      Snoc(out[..|out| - 1], Run(c.format, out[|out| - 1].text + c.text));
    }
  }

  lemma {:induction false} MergeUnobstructed(cs: seq<Child>, e: Edit)
    ensures Unobstructed(Merge(cs), e) <==> Unobstructed(cs, e)
  {
    if cs != [] {
      MergeUnobstructed(cs[..|cs| - 1], e);
      MergeText(cs[..|cs| - 1]);
      PushUnobstructed(Merge(cs[..|cs| - 1]), cs[|cs| - 1], e);
    }
  }

  /** A merged paragraph accepts exactly the edits of the original. */
  lemma MergeAccepts(cs: seq<Child>, e: Edit)
    ensures Accepts(Merge(cs), e) <==> Accepts(cs, e)
  {
    MergeText(cs);
    MergeUnobstructed(cs, e);
  }

  /** No two neighbours of a merged paragraph could be merged. */
  ghost predicate Normal(cs: seq<Child>) {
    forall i :: 0 <= i < |cs| - 1 ==> !(cs[i].Run? && cs[i + 1].Run? && cs[i].format == cs[i + 1].format)
  }

  lemma {:induction false} MergeIsNormal(cs: seq<Child>)
    ensures Normal(Merge(cs))
  {
    if cs != [] {
      MergeIsNormal(cs[..|cs| - 1]);
    }
  }

  lemma {:induction false} NormalMerges(cs: seq<Child>)
    requires Normal(cs)
    ensures Merge(cs) == cs
  {
    if cs != [] {
      NormalMerges(cs[..|cs| - 1]);
    }
  }

  /** Merging and editing commute, also for edits that empty whole runs. */
  lemma MergeEditCommute(cs: seq<Child>, e: Edit)
    requires Accepts(cs, e)
    ensures Accepts(Merge(cs), e)
    ensures Merge(Edited(cs, e)) == Edited(Merge(cs), e)
    ensures Merge(Edited(cs, e)) == Merge(Edited(Merge(cs), e))
  {
    MergeAccepts(cs, e);
    SplicerIsAdditive(e);
    RewriteMerged(cs, Splicer(e));
    MergeIsNormal(Edited(cs, e));
    NormalMerges(Merge(Edited(cs, e)));
  }

  /** Paragraphs that differ only by run splits accept the same edits and stay equal up to run splits. */
  lemma SplitsStayInvisible(p: seq<Child>, q: seq<Child>, e: Edit)
    requires Merge(p) == Merge(q)
    ensures Accepts(p, e) <==> Accepts(q, e)
    ensures Accepts(p, e) ==> Merge(Edited(p, e)) == Merge(Edited(q, e))
  {
    MergeAccepts(p, e);
    MergeAccepts(q, e);
    if Accepts(p, e) {
      MergeEditCommute(p, e);
      MergeEditCommute(q, e);
    }
  }

  lemma CutMerges(before: seq<Child>, format: Format, a: string, b: string)
    ensures Merge(before + [Run(format, a + b)]) == Merge(before + [Run(format, a), Run(format, b)])
  {
    Snoc(before, Run(format, a + b));
    assert before + [Run(format, a), Run(format, b)] == before + [Run(format, a)] + [Run(format, b)];
    Snoc(before + [Run(format, a)], Run(format, b));
    Snoc(before, Run(format, a));
    PushTwice(Merge(before), format, a, b);
  }

  /** Cutting a run in two anywhere is such a difference. */
  lemma {:induction false} SplitMerges(before: seq<Child>, format: Format, a: string, b: string, after: seq<Child>)
    ensures Merge(before + [Run(format, a + b)] + after) == Merge(before + [Run(format, a), Run(format, b)] + after)
    decreases |after|
  {
    var whole, cut := before + [Run(format, a + b)], before + [Run(format, a), Run(format, b)];
    if after == [] {
      CutMerges(before, format, a, b);
      assert whole + after == whole && cut + after == cut;
    } else {
      var init, last := after[..|after| - 1], after[|after| - 1];
      SplitMerges(before, format, a, b, init);
      assert whole + after == (whole + init) + [last] && cut + after == (cut + init) + [last];
      Snoc(whole + init, last);
      Snoc(cut + init, last);
    }
  }

  lemma PushTwice(out: seq<Child>, format: Format, a: string, b: string)
    ensures Push(Push(out, Run(format, a)), Run(format, b)) == Push(out, Run(format, a + b))
  {
    if Push(out, Run(format, a)) != out + [Run(format, a)] {
      var last := out[|out| - 1];
      assert last.text + (a + b) == last.text + a + b;
    }
  }
}
