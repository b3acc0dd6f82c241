/** The client's front page (src/client/client.go): the index with its scores, and the
    recursive rendering of threads, as the sequence of transactions it visits. */
module Client {
  import opened Wire
  import opened Transactions
  import opened Blocks
  import opened Validation
  import opened Ledger
  import opened Invariants
  import opened ClerkAccepted

  // ---------------------------------------------------------------- threads in a list

  /** Transaction `c` is rendered under transaction `i`. */
  predicate Child(p: Protocol, txs: seq<Transaction>, i: nat, c: nat)
    requires i < |txs| && c < |txs|
  {
    txs[c].kind == COMMENT && txs[c].parent == TxHash(p, txs[i])
  }

  /** Every reply comes after content with the hash it names. */
  ghost predicate RepliesFollow(p: Protocol, txs: seq<Transaction>) {
    forall c | 0 <= c < |txs| && IsReply(txs[c]) :: HasParent(p, txs, c)
  }

  ghost predicate HasParent(p: Protocol, txs: seq<Transaction>, c: nat)
    requires c < |txs|
  {
    exists i | 0 <= i < c :: IsContent(txs[i]) && TxHash(p, txs[i]) == txs[c].parent
  }

  /** Two contents of the list have the same hash and yet hang from different parents, or
      only one of them is a comment. */
  ghost predicate ThreadsCollide(p: Protocol, txs: seq<Transaction>) {
    exists i, j ::
      && 0 <= i < |txs| && 0 <= j < |txs| && IsContent(txs[i]) && IsContent(txs[j])
      && TxHash(p, txs[i]) == TxHash(p, txs[j])
      && (txs[i].kind != txs[j].kind || txs[i].parent != txs[j].parent)
  }

  /** A list that can be rendered, whether or not some content is in it more than once. */
  ghost predicate Threaded(p: Protocol, txs: seq<Transaction>) {
    RepliesFollow(p, txs) && !ThreadsCollide(p, txs)
  }

  /** The first content with the given hash, from position `k` on. */
  ghost function FirstFrom(p: Protocol, txs: seq<Transaction>, h: Bytes, k: nat): (f: nat)
    requires k <= |txs|
    ensures k <= f <= |txs|
    ensures f < |txs| ==> IsContent(txs[f]) && TxHash(p, txs[f]) == h
    ensures forall j | k <= j < f :: !(IsContent(txs[j]) && TxHash(p, txs[j]) == h)
    decreases |txs| - k
  {
    if k == |txs| || (IsContent(txs[k]) && TxHash(p, txs[k]) == h) then k else FirstFrom(p, txs, h, k + 1)
  }

  /** Where the content of `txs[i]` is first seen. */
  ghost function Rank(p: Protocol, txs: seq<Transaction>, i: nat): (f: nat)
    requires i < |txs|
    ensures f <= |txs|
  {
    FirstFrom(p, txs, TxHash(p, txs[i]), 0)
  }

  /** A comment is first seen after what it comments on. */
  lemma ChildRanksLater(p: Protocol, txs: seq<Transaction>, i: nat, c: nat)
    requires Threaded(p, txs) && i < |txs| && c < |txs| && Child(p, txs, i, c)
    ensures Rank(p, txs, i) < Rank(p, txs, c) <= c
  {
    var f := Rank(p, txs, c);
    assert f <= c;
    assert txs[f].kind == txs[c].kind && txs[f].parent == txs[c].parent;
    assert IsReply(txs[f]);
    assert HasParent(p, txs, f);
  }

  // ---------------------------------------------------------------- rendering

  /** A line of the page: a position of the list, and how far it is indented. */
  datatype Line = Line(at: nat, indent: nat)

  predicate OfContent(txs: seq<Transaction>, lines: seq<Line>) {
    forall l | l in lines :: l.at < |txs| && IsContent(txs[l.at])
  }

  /** The lines `renderContent` prints, in order.  The recursion ends because a comment is
      first seen after what it comments on. */
  function Render(p: Protocol, txs: seq<Transaction>, i: nat, indent: nat): (r: seq<Line>)
    requires Threaded(p, txs) && i < |txs| && IsContent(txs[i])
    ensures OfContent(txs, r)
    decreases |txs| - Rank(p, txs, i), |txs| + 1
  {
    [Line(i, indent)] + RenderReplies(p, txs, i, 0, indent + 1)
  }

  /** The loop over the list, from position `k` on. */
  function RenderReplies(p: Protocol, txs: seq<Transaction>, i: nat, k: nat, indent: nat): (r: seq<Line>)
    requires Threaded(p, txs) && i < |txs| && IsContent(txs[i]) && k <= |txs|
    ensures OfContent(txs, r)
    decreases |txs| - Rank(p, txs, i), |txs| - k
  {
    if k == |txs| then []
    else if Child(p, txs, i, k) then
      ChildRanksLater(p, txs, i, k);
      Render(p, txs, k, indent) + RenderReplies(p, txs, i, k + 1, indent)
    else RenderReplies(p, txs, i, k + 1, indent)
  }

  /** The loop of `renderFrontPage` over the posts, from position `k` on. */
  function FrontPage(p: Protocol, txs: seq<Transaction>, k: nat): (r: seq<Line>)
    requires Threaded(p, txs) && k <= |txs|
    ensures OfContent(txs, r)
    decreases |txs| - k
  {
    if k == |txs| then []
    else if txs[k].kind == POST then Render(p, txs, k, 0) + FrontPage(p, txs, k + 1)
    else FrontPage(p, txs, k + 1)
  }

  // ---------------------------------------------------------------- the layout

  /** Line `m` hangs directly from line `l`: one step further in, with nothing in between
      that is as far out as `l`. */
  ghost predicate Directly(lines: seq<Line>, l: nat, m: nat) {
    && l < m < |lines| && lines[m].indent == lines[l].indent + 1
    && forall x | l < x <= m :: lines[x].indent > lines[l].indent
  }

  /** Lines `l` and `m` hang from the same place. */
  ghost predicate Siblings(lines: seq<Line>, l: nat, m: nat) {
    && l < m < |lines| && lines[m].indent == lines[l].indent
    && forall x | l < x < m :: lines[x].indent >= lines[l].indent
  }

  /** Line `m` hangs directly from a line that it comments on. */
  ghost predicate HasParentLine(p: Protocol, txs: seq<Transaction>, lines: seq<Line>, m: nat)
    requires OfContent(txs, lines) && m < |lines|
  {
    exists l :: 0 <= l < m && Directly(lines, l, m) && Child(p, txs, lines[l].at, lines[m].at)
  }

  /** Comment `c` hangs directly from line `l`. */
  ghost predicate HasReplyLine(lines: seq<Line>, l: nat, c: nat) {
    exists m :: l < m < |lines| && Directly(lines, l, m) && lines[m].at == c
  }

  ghost predicate Deep(lines: seq<Line>, d: nat) {
    forall k | 0 <= k < |lines| :: lines[k].indent >= d
  }

  ghost predicate Hung(p: Protocol, txs: seq<Transaction>, lines: seq<Line>, d: nat)
    requires OfContent(txs, lines)
  {
    forall m | 0 <= m < |lines| && lines[m].indent > d :: HasParentLine(p, txs, lines, m)
  }

  ghost predicate Complete(p: Protocol, txs: seq<Transaction>, lines: seq<Line>)
    requires OfContent(txs, lines)
  {
    forall l, c | 0 <= l < |lines| && 0 <= c < |txs| && Child(p, txs, lines[l].at, c) :: HasReplyLine(lines, l, c)
  }

  ghost predicate Ordered(lines: seq<Line>) {
    forall l, m | 0 <= l < m < |lines| && Siblings(lines, l, m) :: lines[l].at < lines[m].at
  }

  /** Threads from indent `d` on: every line further in hangs from what it comments on, every
      line has all its comments hanging from it, and lines that hang from the same place are
      in the order of the list. */
  ghost predicate Forest(p: Protocol, txs: seq<Transaction>, lines: seq<Line>, d: nat)
    requires OfContent(txs, lines)
  {
    Deep(lines, d) && Hung(p, txs, lines, d) && Complete(p, txs, lines) && Ordered(lines)
  }

  /** A front page: its threads start with the posts of the list, each of them once. */
  ghost predicate Page(p: Protocol, txs: seq<Transaction>, lines: seq<Line>)
    requires OfContent(txs, lines)
  {
    && Forest(p, txs, lines, 0)
    && (forall l | l in lines && l.indent == 0 :: txs[l.at].kind == POST)
    && (forall k: nat | k < |txs| && txs[k].kind == POST :: Line(k, 0) in lines)
  }

  lemma DirectlyLeft(a: seq<Line>, b: seq<Line>, l: nat, m: nat)
    requires Directly(a, l, m)
    ensures Directly(a + b, l, m)
  {
  }

  lemma DirectlyRight(a: seq<Line>, b: seq<Line>, l: nat, m: nat)
    requires Directly(b, l, m)
    ensures Directly(a + b, |a| + l, |a| + m)
  {
    var c := a + b;
    forall x | |a| + l < x <= |a| + m
      ensures c[x].indent > c[|a| + l].indent
    {
      assert c[x] == b[x - |a|];
    }
  }

  lemma HungConcat(p: Protocol, txs: seq<Transaction>, a: seq<Line>, b: seq<Line>, d: nat)
    requires OfContent(txs, a) && OfContent(txs, b) && Hung(p, txs, a, d) && Hung(p, txs, b, d)
    ensures OfContent(txs, a + b) && Hung(p, txs, a + b, d)
  {
    hide Directly, Child, Hung, HasParentLine;
    var c := a + b;
    forall m | 0 <= m < |c| && c[m].indent > d
      ensures HasParentLine(p, txs, c, m)
    {
      if m < |a| {
        HungAt(p, txs, a, d, m);
        ParentStays(p, txs, a, b, m);
      } else {
        HungAt(p, txs, b, d, m - |a|);
        ParentShifts(p, txs, a, b, m - |a|);
      }
    }
    HungIf(p, txs, c, d);
  }

  lemma ParentStays(p: Protocol, txs: seq<Transaction>, a: seq<Line>, b: seq<Line>, m: nat)
    requires OfContent(txs, a) && OfContent(txs, a + b) && m < |a| && HasParentLine(p, txs, a, m)
    ensures HasParentLine(p, txs, a + b, m)
  {
    hide Directly, Child;
    var l :| 0 <= l < m && Directly(a, l, m) && Child(p, txs, a[l].at, a[m].at);
    DirectlyLeft(a, b, l, m);
  }

  lemma ParentShifts(p: Protocol, txs: seq<Transaction>, a: seq<Line>, b: seq<Line>, m: nat)
    requires OfContent(txs, b) && OfContent(txs, a + b) && m < |b| && HasParentLine(p, txs, b, m)
    ensures HasParentLine(p, txs, a + b, |a| + m)
  {
    hide Directly, Child;
    var l :| 0 <= l < m && Directly(b, l, m) && Child(p, txs, b[l].at, b[m].at);
    DirectlyRight(a, b, l, m);
    assert (a + b)[|a| + l] == b[l] && (a + b)[|a| + m] == b[m];
  }

  lemma CompleteConcat(p: Protocol, txs: seq<Transaction>, a: seq<Line>, b: seq<Line>)
    requires OfContent(txs, a) && OfContent(txs, b) && Complete(p, txs, a) && Complete(p, txs, b)
    ensures OfContent(txs, a + b) && Complete(p, txs, a + b)
  {
    hide Directly, Child, Complete, HasReplyLine;
    var lines := a + b;
    forall l, c | 0 <= l < |lines| && 0 <= c < |txs| && Child(p, txs, lines[l].at, c)
      ensures HasReplyLine(lines, l, c)
    {
      if l < |a| {
        ReplyStays(p, txs, a, b, l, c);
      } else {
        ReplyShifts(p, txs, b, a, l - |a|, c);
      }
    }
    CompleteIf(p, txs, lines);
  }

  lemma ReplyStays(p: Protocol, txs: seq<Transaction>, a: seq<Line>, b: seq<Line>, l: nat, c: nat)
    requires OfContent(txs, a) && Complete(p, txs, a) && l < |a| && c < |txs| && Child(p, txs, a[l].at, c)
    ensures HasReplyLine(a + b, l, c)
  {
    hide Child, Directly;
    assert HasReplyLine(a, l, c);
    var m :| l < m < |a| && Directly(a, l, m) && a[m].at == c;
    DirectlyLeft(a, b, l, m);
  }

  lemma ReplyShifts(p: Protocol, txs: seq<Transaction>, r: seq<Line>, first: seq<Line>, l: nat, c: nat)
    requires OfContent(txs, r) && Complete(p, txs, r) && l < |r| && c < |txs| && Child(p, txs, r[l].at, c)
    ensures HasReplyLine(first + r, |first| + l, c)
  {
    hide Child, Directly;
    assert HasReplyLine(r, l, c);
    var m :| l < m < |r| && Directly(r, l, m) && r[m].at == c;
    DirectlyRight(first, r, l, m);
    assert (first + r)[|first| + m] == r[m];
  }

  /** The outermost lines of `a` come before those of `b` in the list. */
  ghost predicate RootsBefore(a: seq<Line>, b: seq<Line>, d: nat) {
    forall x, y | x in a && y in b && x.indent == d && y.indent == d :: x.at < y.at
  }

  lemma StartsWithRoot(p: Protocol, txs: seq<Transaction>, lines: seq<Line>, d: nat)
    requires OfContent(txs, lines) && Deep(lines, d) && Hung(p, txs, lines, d) && lines != []
    ensures lines[0].indent == d
  {
    hide Directly, Child, Hung;
    if lines[0].indent > d {
      HungAt(p, txs, lines, d, 0);
    }
  }

  lemma HungAt(p: Protocol, txs: seq<Transaction>, lines: seq<Line>, d: nat, m: nat)
    requires OfContent(txs, lines) && Hung(p, txs, lines, d) && m < |lines| && lines[m].indent > d
    ensures HasParentLine(p, txs, lines, m)
  {
    hide HasParentLine;
  }

  lemma OrderedConcat(a: seq<Line>, b: seq<Line>, d: nat)
    requires Deep(a, d) && Deep(b, d) && Ordered(a) && Ordered(b) && RootsBefore(a, b, d)
    requires b != [] ==> b[0].indent == d
    ensures Ordered(a + b)
  {
    var c := a + b;
    forall l, m | 0 <= l < m < |c| && Siblings(c, l, m)
      ensures c[l].at < c[m].at
    {
      if m < |a| {
        SiblingsLeft(a, b, l, m);
      } else if l >= |a| {
        SiblingsRight(a, b, l - |a|, m - |a|);
      } else {
        assert c[|a|] == b[0];
        assert c[l] in a && c[m] in b;
        assert m == |a| || c[|a|].indent >= c[l].indent;
      }
    }
  }

  lemma SiblingsLeft(a: seq<Line>, b: seq<Line>, l: nat, m: nat)
    requires Siblings(a + b, l, m) && m < |a|
    ensures Siblings(a, l, m)
  {
    forall x | l < x < m
      ensures a[x].indent >= a[l].indent
    {
      assert (a + b)[x] == a[x];
    }
  }

  lemma SiblingsRight(a: seq<Line>, b: seq<Line>, l: nat, m: nat)
    requires Siblings(a + b, |a| + l, |a| + m)
    ensures Siblings(b, l, m)
  {
    forall x | l < x < m
      ensures b[x].indent >= b[l].indent
    {
      assert (a + b)[|a| + x] == b[x];
    }
  }

  lemma ForestConcat(p: Protocol, txs: seq<Transaction>, a: seq<Line>, b: seq<Line>, d: nat)
    requires OfContent(txs, a) && OfContent(txs, b) && RootsBefore(a, b, d)
    requires Forest(p, txs, a, d) && Forest(p, txs, b, d)
    ensures OfContent(txs, a + b) && Forest(p, txs, a + b, d)
  {
    hide Hung, Complete, Ordered, RootsBefore;
    HungConcat(p, txs, a, b, d);
    CompleteConcat(p, txs, a, b);
    if b != [] {
      StartsWithRoot(p, txs, b, d);
    }
    OrderedConcat(a, b, d);
  }

  /** The outermost lines of `r` are the comments on `i` from position `k` on. */
  ghost predicate RootsReply(p: Protocol, txs: seq<Transaction>, r: seq<Line>, i: nat, k: nat, d: nat)
    requires OfContent(txs, r) && i < |txs|
  {
    && (forall l | l in r && l.indent == d :: l.at >= k && Child(p, txs, i, l.at))
    && (forall c: nat | k <= c < |txs| && Child(p, txs, i, c) :: Line(c, d) in r)
  }

  lemma HungUnder(p: Protocol, txs: seq<Transaction>, r: seq<Line>, i: nat, d: nat)
    requires i < |txs| && IsContent(txs[i]) && OfContent(txs, r) && Deep(r, d + 1) && Hung(p, txs, r, d + 1)
    requires RootsReply(p, txs, r, i, 0, d + 1)
    ensures OfContent(txs, [Line(i, d)] + r) && Hung(p, txs, [Line(i, d)] + r, d)
  {
    hide Child, Hung, Directly, RootsReply, HasParentLine;
    var c := [Line(i, d)] + r;
    forall m | 0 <= m < |c| && c[m].indent > d
      ensures HasParentLine(p, txs, c, m)
    {
      assert c[m] == r[m - 1];
      HungUnderOne(p, txs, r, i, d, m - 1);
    }
    HungIf(p, txs, c, d);
  }

  lemma HungIf(p: Protocol, txs: seq<Transaction>, lines: seq<Line>, d: nat)
    requires OfContent(txs, lines)
    requires forall m | 0 <= m < |lines| && lines[m].indent > d :: HasParentLine(p, txs, lines, m)
    ensures Hung(p, txs, lines, d)
  {
  }

  lemma DeepAt(lines: seq<Line>, d: nat, m: nat)
    requires Deep(lines, d) && m < |lines|
    ensures lines[m].indent >= d
  {
  }

  lemma HungUnderOne(p: Protocol, txs: seq<Transaction>, r: seq<Line>, i: nat, d: nat, m: nat)
    requires i < |txs| && IsContent(txs[i]) && OfContent(txs, r) && Deep(r, d + 1) && Hung(p, txs, r, d + 1)
    requires RootsReply(p, txs, r, i, 0, d + 1) && m < |r| && OfContent(txs, [Line(i, d)] + r)
    ensures HasParentLine(p, txs, [Line(i, d)] + r, m + 1)
  {
    hide Child, Directly, Hung, Deep;
    var c := [Line(i, d)] + r;
    assert c[m + 1] == r[m] && r[m] in r;
    if r[m].indent == d + 1 {
      UnderFirst(i, d, r, m);
    } else {
      DeepAt(r, d + 1, m);
      HungAt(p, txs, r, d + 1, m);
      ParentShifts(p, txs, [Line(i, d)], r, m);
    }
  }

  lemma UnderFirst(i: nat, d: nat, r: seq<Line>, m: nat)
    requires Deep(r, d + 1) && m < |r| && r[m].indent == d + 1
    ensures Directly([Line(i, d)] + r, 0, m + 1)
  {
    var c := [Line(i, d)] + r;
    forall x | 0 < x <= m + 1
      ensures c[x].indent > c[0].indent
    {
      assert c[x] == r[x - 1];
    }
  }

  lemma CompleteUnder(p: Protocol, txs: seq<Transaction>, r: seq<Line>, i: nat, d: nat)
    requires i < |txs| && IsContent(txs[i]) && OfContent(txs, r) && Deep(r, d + 1) && Complete(p, txs, r)
    requires RootsReply(p, txs, r, i, 0, d + 1)
    ensures OfContent(txs, [Line(i, d)] + r) && Complete(p, txs, [Line(i, d)] + r)
  {
    hide Child, Complete, Directly, RootsReply, HasReplyLine, Deep;
    var lines := [Line(i, d)] + r;
    forall l, c | 0 <= l < |lines| && 0 <= c < |txs| && Child(p, txs, lines[l].at, c)
      ensures HasReplyLine(lines, l, c)
    {
      if l == 0 {
        FirstHasReply(p, txs, r, i, d, c);
      } else {
        assert lines[l] == r[l - 1];
        ReplyShifts(p, txs, r, [Line(i, d)], l - 1, c);
      }
    }
    CompleteIf(p, txs, lines);
  }

  lemma CompleteIf(p: Protocol, txs: seq<Transaction>, lines: seq<Line>)
    requires OfContent(txs, lines)
    requires forall l, c | 0 <= l < |lines| && 0 <= c < |txs| && Child(p, txs, lines[l].at, c) ::
      HasReplyLine(lines, l, c)
    ensures Complete(p, txs, lines)
  {
  }

  lemma FirstHasReply(p: Protocol, txs: seq<Transaction>, r: seq<Line>, i: nat, d: nat, c: nat)
    requires i < |txs| && OfContent(txs, r) && Deep(r, d + 1) && RootsReply(p, txs, r, i, 0, d + 1)
    requires c < |txs| && Child(p, txs, i, c)
    ensures HasReplyLine([Line(i, d)] + r, 0, c)
  {
    hide Child, Directly, Deep;
    assert Line(c, d + 1) in r;
    var m :| 0 <= m < |r| && r[m] == Line(c, d + 1);
    UnderFirst(i, d, r, m);
    assert ([Line(i, d)] + r)[m + 1] == r[m];
  }

  lemma OrderedUnder(r: seq<Line>, i: nat, d: nat)
    requires Deep(r, d + 1) && Ordered(r)
    ensures Ordered([Line(i, d)] + r)
  {
    var a := [Line(i, d)];
    var c := a + r;
    forall l, m | 0 <= l < m < |c| && Siblings(c, l, m)
      ensures c[l].at < c[m].at
    {
      assert c[m] == r[m - 1];
      if l > 0 {
        assert c[l] == r[l - 1];
        SiblingsRight(a, r, l - 1, m - 1);
      }
    }
  }

  lemma ForestUnder(p: Protocol, txs: seq<Transaction>, r: seq<Line>, i: nat, d: nat)
    requires i < |txs| && IsContent(txs[i]) && OfContent(txs, r) && Forest(p, txs, r, d + 1)
    requires RootsReply(p, txs, r, i, 0, d + 1)
    ensures OfContent(txs, [Line(i, d)] + r) && Forest(p, txs, [Line(i, d)] + r, d)
  {
    hide Hung, Complete, Ordered, RootsReply;
    HungUnder(p, txs, r, i, d);
    CompleteUnder(p, txs, r, i, d);
    OrderedUnder(r, i, d);
  }

  lemma EmptyForest(p: Protocol, txs: seq<Transaction>, d: nat)
    ensures OfContent(txs, []) && Forest(p, txs, [], d)
  {
  }

  /** One thread: its first line is the only one at its indent. */
  lemma {:induction false} RenderIsForest(p: Protocol, txs: seq<Transaction>, i: nat, d: nat)
    requires Threaded(p, txs) && i < |txs| && IsContent(txs[i])
    ensures Forest(p, txs, Render(p, txs, i, d), d)
    ensures forall l | l in Render(p, txs, i, d) && l.indent == d :: l.at == i
    ensures Line(i, d) in Render(p, txs, i, d)
    decreases |txs| - Rank(p, txs, i), |txs| + 1
  {
    hide Threaded, Rank, Hung, Complete, Ordered, RootsReply;
    RepliesAreForest(p, txs, i, 0, d + 1);
    ForestUnder(p, txs, RenderReplies(p, txs, i, 0, d + 1), i, d);
  }

  lemma {:induction false} RepliesAreForest(p: Protocol, txs: seq<Transaction>, i: nat, k: nat, d: nat)
    requires Threaded(p, txs) && i < |txs| && IsContent(txs[i]) && k <= |txs|
    ensures Forest(p, txs, RenderReplies(p, txs, i, k, d), d)
    ensures RootsReply(p, txs, RenderReplies(p, txs, i, k, d), i, k, d)
    decreases |txs| - Rank(p, txs, i), |txs| - k
  {
    hide Threaded, Rank, Forest, Render;
    if k == |txs| {
      EmptyForest(p, txs, d);
    } else {
      RepliesAreForest(p, txs, i, k + 1, d);
      if Child(p, txs, i, k) {
        ChildRanksLater(p, txs, i, k);
        RenderIsForest(p, txs, k, d);
        ForestConcat(p, txs, Render(p, txs, k, d), RenderReplies(p, txs, i, k + 1, d), d);
      }
    }
  }

  /** The whole page is laid out as threads. */
  lemma {:induction false} FrontPageIsForest(p: Protocol, txs: seq<Transaction>, k: nat)
    requires Threaded(p, txs) && k <= |txs|
    ensures Forest(p, txs, FrontPage(p, txs, k), 0)
    ensures forall l | l in FrontPage(p, txs, k) && l.indent == 0 :: l.at >= k && txs[l.at].kind == POST
    ensures forall c: nat | k <= c < |txs| && txs[c].kind == POST :: Line(c, 0) in FrontPage(p, txs, k)
    decreases |txs| - k
  {
    hide Threaded, Forest, Render;
    if k == |txs| {
      EmptyForest(p, txs, 0);
    } else {
      FrontPageIsForest(p, txs, k + 1);
      if txs[k].kind == POST {
        RenderIsForest(p, txs, k, 0);
        ForestConcat(p, txs, Render(p, txs, k, 0), FrontPage(p, txs, k + 1), 0);
      }
    }
  }

  lemma FrontPageIsPage(p: Protocol, txs: seq<Transaction>)
    requires Threaded(p, txs)
    ensures Page(p, txs, FrontPage(p, txs, 0))
  {
    hide Threaded, Forest, FrontPage;
    FrontPageIsForest(p, txs, 0);
  }

  // ---------------------------------------------------------------- how often each is shown

  /** How often the first `n` positions show something that `k` comments on. */
  function Above(p: Protocol, txs: seq<Transaction>, m: multiset<nat>, k: nat, n: nat): nat
    requires k < |txs| && n <= |txs|
  {
    if n == 0 then 0 else Above(p, txs, m, k, n - 1) + if Child(p, txs, n - 1, k) then m[n - 1] else 0
  }

  lemma {:induction false} AboveAdds(p: Protocol, txs: seq<Transaction>, a: multiset<nat>, b: multiset<nat>,
      k: nat, n: nat)
    requires k < |txs| && n <= |txs|
    ensures Above(p, txs, a + b, k, n) == Above(p, txs, a, k, n) + Above(p, txs, b, k, n)
  {
    if n > 0 {
      AboveAdds(p, txs, a, b, k, n - 1);
    }
  }

  lemma {:induction false} AboveOne(p: Protocol, txs: seq<Transaction>, i: nat, k: nat, n: nat)
    requires i < |txs| && k < |txs| && n <= |txs|
    ensures Above(p, txs, multiset{i}, k, n) == if i < n && Child(p, txs, i, k) then 1 else 0
    ensures Above(p, txs, multiset{}, k, n) == 0
  {
    if n > 0 {
      AboveOne(p, txs, i, k, n - 1);
    }
  }

  /** The positions on the lines. */
  function Shows(lines: seq<Line>): multiset<nat> {
    if lines == [] then multiset{} else Shows(lines[..|lines| - 1]) + multiset{lines[|lines| - 1].at}
  }

  lemma {:induction false} ShowsAdds(a: seq<Line>, b: seq<Line>)
    ensures Shows(a + b) == Shows(a) + Shows(b)
    decreases |b|
  {
    if b == [] {
      assert a + b == a;
    } else {
      var rest := b[..|b| - 1];
      assert (a + b)[..|a + b| - 1] == a + rest;
      ShowsAdds(a, rest);
    }
  }

  lemma {:induction false} ShowsMember(lines: seq<Line>, k: nat)
    ensures k in Shows(lines) <==> exists l :: l in lines && l.at == k
  {
    if lines != [] {
      var rest, last := lines[..|lines| - 1], lines[|lines| - 1];
      ShowsMember(rest, k);
      assert lines == rest + [last];
    }
  }

  lemma ShowsOne(l: Line)
    ensures Shows([l]) == multiset{l.at} && Shows([]) == multiset{}
  {
    assert [l][..0] == [];
  }

  /** Among the lines position `k` occurs `more` times beyond once for each occurrence of
      something it comments on. */
  ghost predicate Flows(p: Protocol, txs: seq<Transaction>, lines: seq<Line>, k: nat, more: nat)
    requires k < |txs|
  {
    Shows(lines)[k] == more + Above(p, txs, Shows(lines), k, |txs|)
  }

  lemma FlowsAdd(p: Protocol, txs: seq<Transaction>, a: seq<Line>, b: seq<Line>, k: nat, x: nat, y: nat)
    requires k < |txs| && Flows(p, txs, a, k, x) && Flows(p, txs, b, k, y)
    ensures Flows(p, txs, a + b, k, x + y)
  {
    ShowsAdds(a, b);
    AboveAdds(p, txs, Shows(a), Shows(b), k, |txs|);
  }

  lemma FlowsNone(p: Protocol, txs: seq<Transaction>, k: nat)
    requires k < |txs|
    ensures Flows(p, txs, [], k, 0)
  {
    AboveOne(p, txs, k, k, |txs|);
  }

  lemma {:induction false} RenderFlows(p: Protocol, txs: seq<Transaction>, i: nat, d: nat, k: nat)
    requires Threaded(p, txs) && i < |txs| && IsContent(txs[i]) && k < |txs|
    ensures Flows(p, txs, Render(p, txs, i, d), k, if k == i then 1 else 0)
    decreases |txs| - Rank(p, txs, i), |txs| + 1
  {
    hide Threaded, Above, Child, Shows;
    var first, r := [Line(i, d)], RenderReplies(p, txs, i, 0, d + 1);
    RepliesFlow(p, txs, i, 0, d + 1, k);
    ShowsAdds(first, r);
    ShowsOne(Line(i, d));
    AboveAdds(p, txs, multiset{i}, Shows(r), k, |txs|);
    AboveOne(p, txs, i, k, |txs|);
  }

  lemma {:induction false} RepliesFlow(p: Protocol, txs: seq<Transaction>, i: nat, from: nat, d: nat, k: nat)
    requires Threaded(p, txs) && i < |txs| && IsContent(txs[i]) && from <= |txs| && k < |txs|
    ensures Flows(p, txs, RenderReplies(p, txs, i, from, d), k, if Child(p, txs, i, k) && k >= from then 1 else 0)
    decreases |txs| - Rank(p, txs, i), |txs| - from
  {
    hide Threaded, Flows, Rank;
    if from == |txs| {
      FlowsNone(p, txs, k);
    } else {
      RepliesFlow(p, txs, i, from + 1, d, k);
      if Child(p, txs, i, from) {
        ChildRanksLater(p, txs, i, from);
        RenderFlows(p, txs, from, d, k);
        var x, y := if k == from then 1 else 0, if Child(p, txs, i, k) && k >= from + 1 then 1 else 0;
        FlowsAdd(p, txs, Render(p, txs, from, d), RenderReplies(p, txs, i, from + 1, d), k, x, y);
      }
    }
  }

  /** The front page shows each post once for itself, and each comment once for every time
      it shows something the comment names. */
  lemma {:induction false} FrontPageFlows(p: Protocol, txs: seq<Transaction>, from: nat, k: nat)
    requires Threaded(p, txs) && from <= |txs| && k < |txs|
    ensures Flows(p, txs, FrontPage(p, txs, from), k, if txs[k].kind == POST && k >= from then 1 else 0)
    decreases |txs| - from
  {
    hide Threaded, Flows;
    if from == |txs| {
      FlowsNone(p, txs, k);
    } else {
      FrontPageFlows(p, txs, from + 1, k);
      if txs[from].kind == POST {
        RenderFlows(p, txs, from, 0, k);
        var x, y := if k == from then 1 else 0, if txs[k].kind == POST && k >= from + 1 then 1 else 0;
        FlowsAdd(p, txs, Render(p, txs, from, 0), FrontPage(p, txs, from + 1), k, x, y);
      }
    }
  }

  /** How often position `k` is shown, told from the list alone: a post once, a comment as
      often as all the copies of its parent together. */
  ghost function Shown(p: Protocol, txs: seq<Transaction>, k: nat): nat
    requires Threaded(p, txs) && k < |txs|
    decreases Rank(p, txs, k), |txs| + 1
  {
    if txs[k].kind == POST then 1 else ShownAbove(p, txs, k, |txs|)
  }

  ghost function ShownAbove(p: Protocol, txs: seq<Transaction>, k: nat, n: nat): nat
    requires Threaded(p, txs) && k < |txs| && n <= |txs|
    decreases Rank(p, txs, k), n
  {
    hide Threaded, Rank, Child;
    if n == 0 then 0
    else
      ShownAbove(p, txs, k, n - 1) +
      if Child(p, txs, n - 1, k) then
        ChildRanksLater(p, txs, n - 1, k);
        Shown(p, txs, n - 1)
      else 0
  }

  lemma {:induction false} PostsHangFromNothing(p: Protocol, txs: seq<Transaction>, m: multiset<nat>, k: nat, n: nat)
    requires k < |txs| && n <= |txs| && txs[k].kind != COMMENT
    ensures Above(p, txs, m, k, n) == 0
  {
    if n > 0 {
      PostsHangFromNothing(p, txs, m, k, n - 1);
    }
  }

  /** Repeated content or not, the front page shows everything as often as the list says. */
  lemma {:induction false} FrontPageShows(p: Protocol, txs: seq<Transaction>, k: nat)
    requires Threaded(p, txs) && k < |txs|
    ensures Shows(FrontPage(p, txs, 0))[k] == Shown(p, txs, k)
    decreases Rank(p, txs, k), |txs| + 1
  {
    hide Threaded, FrontPage, Rank;
    var m := Shows(FrontPage(p, txs, 0));
    FrontPageFlows(p, txs, 0, k);
    if txs[k].kind == POST {
      PostsHangFromNothing(p, txs, m, k, |txs|);
    } else {
      SumsAgree(p, txs, k, |txs|);
    }
  }

  lemma {:induction false} SumsAgree(p: Protocol, txs: seq<Transaction>, k: nat, n: nat)
    requires Threaded(p, txs) && k < |txs| && n <= |txs|
    ensures Above(p, txs, Shows(FrontPage(p, txs, 0)), k, n) == ShownAbove(p, txs, k, n)
    decreases Rank(p, txs, k), n
  {
    hide Threaded, FrontPage, Rank;
    if n > 0 {
      SumsAgree(p, txs, k, n - 1);
      if Child(p, txs, n - 1, k) {
        ChildRanksLater(p, txs, n - 1, k);
        FrontPageShows(p, txs, n - 1);
      }
    }
  }

  lemma NothingElse(p: Protocol, txs: seq<Transaction>, k: nat)
    requires Threaded(p, txs) && k >= |txs|
    ensures Shows(FrontPage(p, txs, 0))[k] == 0
  {
    hide Threaded, FrontPage, Shows;
    ShowsMember(FrontPage(p, txs, 0), k);
  }

  // ---------------------------------------------------------------- shown once

  /** No content is in the list twice, nor do two contents collide. */
  ghost predicate DistinctContent(p: Protocol, txs: seq<Transaction>) {
    forall i, j | 0 <= i < j < |txs| && IsContent(txs[i]) && IsContent(txs[j]) :: TxHash(p, txs[i]) != TxHash(p, txs[j])
  }

  lemma DistinctIsThreaded(p: Protocol, txs: seq<Transaction>)
    requires DistinctContent(p, txs) && RepliesFollow(p, txs)
    ensures Threaded(p, txs)
  {
  }

  lemma {:induction false} ShownOnce(p: Protocol, txs: seq<Transaction>, k: nat)
    requires Threaded(p, txs) && DistinctContent(p, txs) && k < |txs|
    ensures Shown(p, txs, k) == if IsContent(txs[k]) then 1 else 0
    decreases Rank(p, txs, k), |txs| + 1
  {
    if txs[k].kind == COMMENT {
      assert IsReply(txs[k]) && HasParent(p, txs, k);
      var i :| 0 <= i < k && IsContent(txs[i]) && TxHash(p, txs[i]) == txs[k].parent;
      hide Threaded, Rank;
      OneAbove(p, txs, k, |txs|, i);
    } else {
      NothingAbove(p, txs, k, |txs|);
    }
  }

  lemma {:induction false} NothingAbove(p: Protocol, txs: seq<Transaction>, k: nat, n: nat)
    requires Threaded(p, txs) && k < |txs| && n <= |txs| && txs[k].kind != COMMENT
    ensures ShownAbove(p, txs, k, n) == 0
    decreases n
  {
    hide Threaded;
    if n > 0 {
      NothingAbove(p, txs, k, n - 1);
    }
  }

  /** Of all that comment `k` may name only its parent `i` is content. */
  lemma {:induction false} OneAbove(p: Protocol, txs: seq<Transaction>, k: nat, n: nat, i: nat)
    requires Threaded(p, txs) && DistinctContent(p, txs) && k < |txs| && n <= |txs| && i < |txs|
    requires IsContent(txs[i]) && Child(p, txs, i, k)
    ensures ShownAbove(p, txs, k, n) == if i < n then 1 else 0
    decreases Rank(p, txs, k), n
  {
    hide Threaded, Rank, Shown, ShownAbove, DistinctContent, Child;
    ShownAboveStep(p, txs, k, n);
    if n > 0 {
      OneAbove(p, txs, k, n - 1, i);
      if Child(p, txs, n - 1, k) {
        ChildRanksLater(p, txs, n - 1, k);
        ShownOnce(p, txs, n - 1);
        OnlyParent(p, txs, k, n - 1, i);
      }
    }
  }

  lemma ShownAboveStep(p: Protocol, txs: seq<Transaction>, k: nat, n: nat)
    requires Threaded(p, txs) && k < |txs| && n <= |txs|
    ensures n == 0 ==> ShownAbove(p, txs, k, n) == 0
    ensures n > 0 ==>
            var more := if Child(p, txs, n - 1, k) then Shown(p, txs, n - 1) else 0;
            ShownAbove(p, txs, k, n) == ShownAbove(p, txs, k, n - 1) + more
  {
    hide Threaded, Rank, Shown, Child;
  }

  lemma OnlyParent(p: Protocol, txs: seq<Transaction>, k: nat, j: nat, i: nat)
    requires DistinctContent(p, txs) && k < |txs| && i < |txs| && j < |txs|
    requires IsContent(txs[i]) && Child(p, txs, i, k) && Child(p, txs, j, k)
    ensures IsContent(txs[j]) <==> j == i
  {
    hide TxHash;
    assert i < j || j < i || i == j;
  }

  // ---------------------------------------------------------------- chains the node reaches

  lemma {:induction false} ChainOrder(chain: seq<Block>, c: nat)
    requires c < |AllTxs(chain)|
    ensures exists k | 0 <= k < |chain| ::
          AllTxs(chain)[c] in chain[k].transactions && |AllTxs(chain[..k])| <= c && AllTxs(chain[..k]) <= AllTxs(chain)
  {
    if chain != [] {
      var n := |chain| - 1;
      var rest := chain[..n];
      if c < |AllTxs(rest)| {
        ChainOrder(rest, c);
        var k :| 0 <= k < |rest| && AllTxs(rest)[c] in rest[k].transactions && |AllTxs(rest[..k])| <= c &&
          AllTxs(rest[..k]) <= AllTxs(rest);
        assert rest[..k] == chain[..k];
      } else {
        assert AllTxs(chain)[c] == chain[n].transactions[c - |AllTxs(rest)|];
        assert AllTxs(rest) <= AllTxs(chain);
      }
    }
  }

  /** On a chain grown by the node, every comment or upvote follows its parent. */
  lemma GrownChainIsThreaded(p: Protocol, chain: seq<Block>)
    requires Grown(p, chain)
    ensures RepliesFollow(p, AllTxs(chain))
  {
    hide Grown;
    var txs := AllTxs(chain);
    forall c | 0 <= c < |txs| && IsReply(txs[c])
      ensures HasParent(p, txs, c)
    {
      ChainOrder(chain, c);
      var k :| 0 <= k < |chain| && txs[c] in chain[k].transactions && |AllTxs(chain[..k])| <= c &&
        AllTxs(chain[..k]) <= txs;
      ParentIsEarlier(p, chain, k, txs[c]);
      var parent :| parent in AllTxs(chain[..k]) && TxHash(p, parent) == txs[c].parent && IsContent(parent);
      var i :| 0 <= i < |AllTxs(chain[..k])| && AllTxs(chain[..k])[i] == parent;
      assert txs[i] == parent;
    }
  }

  /** Any chain the node grows can be rendered to the end, unless two contents of that very
      chain collide. */
  lemma GrownChainRenders(p: Protocol, chain: seq<Block>)
    requires Grown(p, chain)
    ensures Threaded(p, AllTxs(chain)) || ThreadsCollide(p, AllTxs(chain))
  {
    hide Grown, RepliesFollow, ThreadsCollide;
    GrownChainIsThreaded(p, chain);
  }

  /** The front page of any chain the node reaches, if the hashes of its posts and comments
      are distinct, shows every post and every comment exactly once and nothing else. */
  lemma FrontPageShowsAllOnce(p: Protocol, chain: seq<Block>, k: nat)
    requires Grown(p, chain) && DistinctContent(p, AllTxs(chain))
    ensures Threaded(p, AllTxs(chain))
    ensures Shows(FrontPage(p, AllTxs(chain), 0))[k]
         == if k < |AllTxs(chain)| && IsContent(AllTxs(chain)[k]) then 1 else 0
  {
    hide Grown, DistinctContent, RepliesFollow, Threaded, FrontPage;
    var txs := AllTxs(chain);
    GrownChainIsThreaded(p, chain);
    DistinctIsThreaded(p, txs);
    if k < |txs| {
      FrontPageShows(p, txs, k);
      ShownOnce(p, txs, k);
    } else {
      NothingElse(p, txs, k);
    }
  }

  // ---------------------------------------------------------------- index and scores

  datatype TxClient = TxClient(tx: Transaction, hash: Bytes, score: nat, address: Bytes)

  const ABBREVIATION := 6

  /** The abbreviation under which a transaction is filed. */
  function Key(h: Bytes): Bytes
    requires |h| >= ABBREVIATION
  {
    h[..ABBREVIATION]
  }

  /** Different hashes in the list have different abbreviations. */
  ghost predicate DistinctKeys(p: Protocol, txs: seq<Transaction>) {
    forall a, b | a in txs && b in txs && Key(TxHash(p, a)) == Key(TxHash(p, b)) :: TxHash(p, a) == TxHash(p, b)
  }

  function Upvotes(txs: seq<Transaction>, h: Bytes): nat {
    if txs == [] then 0
    else Upvotes(txs[..|txs| - 1], h) + if txs[|txs| - 1].kind == UPVOTE && txs[|txs| - 1].parent == h then 1 else 0
  }

  /** The positions of the upvotes of `h`. */
  ghost function UpvotesOf(txs: seq<Transaction>, h: Bytes): set<nat> {
    set k: nat | k < |txs| && txs[k].kind == UPVOTE && txs[k].parent == h
  }

  /** A score is the number of upvotes in the list. */
  lemma {:induction false} ScoresCountUpvotes(txs: seq<Transaction>, h: Bytes)
    ensures Upvotes(txs, h) == |UpvotesOf(txs, h)|
  {
    if txs != [] {
      var n: nat := |txs| - 1;
      ScoresCountUpvotes(txs[..n], h);
      var less, last := UpvotesOf(txs[..n], h), txs[n].kind == UPVOTE && txs[n].parent == h;
      assert UpvotesOf(txs, h) == if last then less + {n} else less;
    }
  }

  /** Every transaction is filed under its abbreviation, content with its author. */
  ghost predicate Filed(p: Protocol, m: map<Bytes, TxClient>, txs: seq<Transaction>) {
    forall tx | tx in txs :: Key(TxHash(p, tx)) in m && FiledAs(p, m[Key(TxHash(p, tx))], txs, TxHash(p, tx))
  }

  ghost predicate FiledAs(p: Protocol, entry: TxClient, txs: seq<Transaction>, h: Digest) {
    && entry.hash == h
    && entry.tx in txs && TxHash(p, entry.tx) == h
    && (IsContent(entry.tx) ==> entry.tx.txOuts != [] && entry.address == entry.tx.txOuts[0].pubKeyHash)
  }

  ghost predicate Scored(p: Protocol, m: map<Bytes, TxClient>, txs: seq<Transaction>, counted: seq<Transaction>)
    requires Filed(p, m, txs)
  {
    forall tx | tx in txs :: m[Key(TxHash(p, tx))].score == Upvotes(counted, TxHash(p, tx))
  }

  /** The first loop: every transaction filed, with score zero. */
  method FileAll(p: Protocol, start: map<Bytes, TxClient>, txs: seq<Transaction>) returns (m: map<Bytes, TxClient>)
    requires DistinctKeys(p, txs)
    requires forall tx | tx in txs && IsContent(tx) :: tx.txOuts != []
    ensures Filed(p, m, txs) && Scored(p, m, txs, [])
  {
    hide TxHash, IsContent;
    m := start;
    for k := 0 to |txs|
      invariant Filed(p, m, txs[..k]) && Scored(p, m, txs[..k], [])
    {
      var tx := txs[k];
      var h := TxHash(p, tx);
      m := m[Key(h) := TxClient(tx, h, 0, if IsContent(tx) then tx.txOuts[0].pubKeyHash else [])];
      assert txs[..k + 1] == txs[..k] + [tx];
    }
    assert txs[..|txs|] == txs;
  }

  /** Fills the index and counts the upvotes; finds every upvoted parent in the index. */
  method IndexAndScore(p: Protocol, start: map<Bytes, TxClient>, txs: seq<Transaction>)
      returns (m: map<Bytes, TxClient>)
    requires RepliesFollow(p, txs) && DistinctKeys(p, txs)
    requires forall tx | tx in txs && IsContent(tx) :: tx.txOuts != []
    ensures Filed(p, m, txs) && Scored(p, m, txs, txs)
  {
    hide RepliesFollow, TxHash, IsContent, FiledAs;
    m := FileAll(p, start, txs);
    for k := 0 to |txs|
      invariant Filed(p, m, txs) && Scored(p, m, txs, txs[..k])
    {
      assert txs[..k + 1][..k] == txs[..k];
      if txs[k].kind == UPVOTE {
        UpvoteIsFiled(p, txs, k);
        var key := Key(txs[k].parent);
        CountOne(p, m, txs, k);
        m := m[key := m[key].(score := m[key].score + 1)];
      }
    }
    assert txs[..|txs|] == txs;
  }

  lemma CountOne(p: Protocol, m: map<Bytes, TxClient>, txs: seq<Transaction>, k: nat)
    requires DistinctKeys(p, txs) && Filed(p, m, txs) && k < |txs| && Scored(p, m, txs, txs[..k])
    requires txs[k].kind == UPVOTE && |txs[k].parent| == HASH_NUM_BYTES
    requires exists tx :: tx in txs && TxHash(p, tx) == txs[k].parent
    ensures var key := Key(txs[k].parent);
      && key in m
      && var m' := m[key := m[key].(score := m[key].score + 1)];
         Filed(p, m', txs) && Scored(p, m', txs, txs[..k + 1])
  {
    hide TxHash, IsContent;
    var key := Key(txs[k].parent);
    var m' := m[key := m[key].(score := m[key].score + 1)];
    assert txs[..k + 1][..k] == txs[..k];
    forall tx | tx in txs
      ensures Key(TxHash(p, tx)) in m' && FiledAs(p, m'[Key(TxHash(p, tx))], txs, TxHash(p, tx))
      ensures m'[Key(TxHash(p, tx))].score == Upvotes(txs[..k + 1], TxHash(p, tx))
    {
      assert FiledAs(p, m[Key(TxHash(p, tx))], txs, TxHash(p, tx));
    }
  }

  /** The parent of an upvote is a transaction of the list, so its entry exists. */
  lemma UpvoteIsFiled(p: Protocol, txs: seq<Transaction>, k: nat)
    requires RepliesFollow(p, txs) && k < |txs| && txs[k].kind == UPVOTE
    ensures |txs[k].parent| == HASH_NUM_BYTES && exists tx :: tx in txs && TxHash(p, tx) == txs[k].parent
  {
    assert IsReply(txs[k]);
    assert HasParent(p, txs, k);
    var i :| 0 <= i < k && IsContent(txs[i]) && TxHash(p, txs[i]) == txs[k].parent;
    assert txs[i] in txs;
  }

  /** What the client passes to `Upvote` for a post or comment of its index is content of
      the chain together with its author, as the node will demand. */
  lemma IndexedContentCanBeUpvoted(p: Protocol, m: map<Bytes, TxClient>, txs: seq<Transaction>, tx: Transaction)
    requires Filed(p, m, txs) && tx in txs && IsContent(tx)
    requires forall a, b | a in txs && b in txs && TxHash(p, a) == TxHash(p, b) :: a == b
    ensures var entry := m[Key(TxHash(p, tx))]; UpvoteParent(p, txs, entry.hash, entry.address)
  {
    FindTxIsFirst(p, txs, TxHash(p, tx));
    assert FindTx(p, txs, TxHash(p, tx)).value in txs;
  }

  // ---------------------------------------------------------------- the whole page

  /** `renderFrontPage` on any chain the node reaches: nothing is dereferenced that is not
      there, every score counts the upvotes of its transaction, and everything is shown as
      often as the chain says; content that is on the chain once, exactly once. */
  method RenderFrontPage(p: Protocol, start: map<Bytes, TxClient>, chain: seq<Block>)
      returns (m: map<Bytes, TxClient>, shown: seq<Line>)
    requires Grown(p, chain) && !ThreadsCollide(p, AllTxs(chain)) && DistinctKeys(p, AllTxs(chain))
    ensures Filed(p, m, AllTxs(chain)) && Scored(p, m, AllTxs(chain), AllTxs(chain))
    ensures Threaded(p, AllTxs(chain)) && OfContent(AllTxs(chain), shown) && Page(p, AllTxs(chain), shown)
    ensures forall k: nat :: Shows(shown)[k] == if k < |AllTxs(chain)| then Shown(p, AllTxs(chain), k) else 0
    ensures DistinctContent(p, AllTxs(chain)) ==>
            forall k: nat :: Shows(shown)[k] == if k < |AllTxs(chain)| && IsContent(AllTxs(chain)[k]) then 1 else 0
  {
    hide Grown, DistinctContent, DistinctKeys, Filed, Scored, IsContent, FrontPage, ThreadsCollide,
      RepliesFollow, Shown, Shows, Page;
    var txs := [];
    for k := 0 to |chain|
      invariant txs == AllTxs(chain[..k])
    {
      AllTxsLast(chain[..k], chain[k]);
      assert chain[..k + 1] == chain[..k] + [chain[k]];
      txs := txs + chain[k].transactions;
    }
    assert chain[..|chain|] == chain;
    GrownChainIsThreaded(p, chain);
    AuthorsAreKnown(p, chain);
    m := IndexAndScore(p, start, txs);
    shown := FrontPage(p, txs, 0);
    FrontPageIsPage(p, txs);
    forall k: nat
      ensures Shows(shown)[k] == if k < |txs| then Shown(p, txs, k) else 0
      ensures DistinctContent(p, txs) ==> Shows(shown)[k] == if k < |txs| && IsContent(txs[k]) then 1 else 0
    {
      if k < |txs| {
        FrontPageShows(p, txs, k);
        if DistinctContent(p, txs) {
          ShownOnce(p, txs, k);
        }
      } else {
        NothingElse(p, txs, k);
      }
    }
  }

  lemma AuthorsAreKnown(p: Protocol, chain: seq<Block>)
    requires Grown(p, chain)
    ensures forall tx | tx in AllTxs(chain) && IsContent(tx) :: tx.txOuts != []
  {
    forall tx | tx in AllTxs(chain) && IsContent(tx)
      ensures tx.txOuts != []
    {
      AllTxsMember(chain, tx);
      var k :| 0 <= k < |chain| && tx in chain[k].transactions;
      ContentHasAuthor(p, chain, k, tx);
    }
  }

  /** Every chain of every run is one the page can be rendered for. */
  lemma RunChainIsGrown(p: Protocol, me: Address, tr: seq<State>, evs: seq<Event>, k: nat)
    requires Run(p, me, tr, evs) && k < |tr|
    ensures Grown(p, tr[k].chain)
  {
    RunKeepsInv(p, me, tr, evs, k);
  }
}
