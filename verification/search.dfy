/** The log search behind `blast`: test every non-blank line's command
    against the search term, keep the last `limit` matches, and show each
    match with its before/after context, where a context line already shown
    is not shown again. Output is modelled as blocks of line indices (one
    block per match, each followed by a separator in the program) rather
    than as coloured text. */
module Search {
  import opened Wrappers
  import opened Text
  import opened LogFormat

  /** How a command is tested. A literal term is a substring test, on
      lower-cased text when the search is case-insensitive. A regular
      expression is the compiled pattern's `search`, with the
      case-insensitivity flag already applied; the engine is not modelled. */
  datatype Matcher =
    | Literal(term: string, caseSensitive: bool)
    | Pattern(search: string -> bool)

  predicate Accepts(m: Matcher, cmd: string) {
    match m
    case Literal(term, caseSensitive) =>
      if caseSensitive then Contains(cmd, term) else Contains(Lower(cmd), Lower(term))
    case Pattern(search) => search(cmd)
  }

  /** What the search sees of one raw line: nothing for a blank line, which
      every loop of the search skips, otherwise the line's record. */
  function Classify(line: string): Option<Record> {
    if IsBlank(line) then None else Some(LineRecord(line))
  }

  /** The log file's lines as the search sees them, one entry per line. */
  function Records(lines: seq<string>): (recs: seq<Option<Record>>)
    ensures |recs| == |lines|
    ensures forall i :: 0 <= i < |lines| ==> recs[i] == Classify(lines[i])
  {
    Map(lines, Classify)
  }

  /** Line `i` is a match: it is not blank and its command part, never its
      timestamp, passes the test. A match is identified by its index among
      all lines of the file. */
  predicate IsHit(recs: seq<Option<Record>>, m: Matcher, i: int) {
    0 <= i < |recs| && recs[i].Some? && Accepts(m, recs[i].value.cmd)
  }

  /** In terms of the raw lines: a match is a non-blank line whose parsed
      command passes the test. */
  lemma HitOfLine(lines: seq<string>, m: Matcher, i: int)
    ensures IsHit(Records(lines), m, i) <==>
      0 <= i < |lines| && !IsBlank(lines[i]) && Accepts(m, LineRecord(lines[i]).cmd)
  {
  }

  predicate Increasing(xs: seq<nat>) {
    forall k, l :: 0 <= k < l < |xs| ==> xs[k] < xs[l]
  }

  lemma IncreasingSnoc(xs: seq<nat>, x: nat)
    requires Increasing(xs)
    requires forall k :: 0 <= k < |xs| ==> xs[k] < x
    ensures Increasing(xs + [x])
  {
  }

  lemma IncreasingCons(x: nat, xs: seq<nat>)
    requires Increasing(xs)
    requires forall k :: 0 <= k < |xs| ==> x < xs[k]
    ensures Increasing([x] + xs)
  {
  }

  /** The indices below `n` that satisfy `p`, in increasing order: the
      shape of the program's scan loop, which visits the lines in order and
      appends each index that passes. */
  function Select(n: nat, p: nat -> bool): (r: seq<nat>)
    ensures Increasing(r)
    ensures forall k :: 0 <= k < |r| ==> r[k] < n && p(r[k])
    ensures forall i :: 0 <= i < n ==> (p(i) <==> i in r)
  {
    if n == 0 then []
    else
      var prev := Select(n - 1, p);
      assert (n - 1) !in prev;
      if p(n - 1) then
        IncreasingSnoc(prev, n - 1);
        prev + [n - 1]
      else prev
  }

  /** The matches of the whole file, in file order: exactly the non-blank
      lines whose command passes the test. */
  function Scan(recs: seq<Option<Record>>, m: Matcher): (hits: seq<nat>)
    ensures Increasing(hits)
    ensures forall k :: 0 <= k < |hits| ==> IsHit(recs, m, hits[k])
    ensures forall i :: 0 <= i < |recs| ==> (IsHit(recs, m, i) <==> i in hits)
  {
    Select(|recs|, i => IsHit(recs, m, i))
  }

  /** The `limit` option as the program applies it: when it is given and
      non-zero and there are more matches than it, only `matches[-limit:]`
      is kept. A positive limit keeps the last `limit` matches; a negative
      one drops the first `-limit`. */
  function Limit(hits: seq<nat>, limit: Option<int>): (r: seq<nat>)
    ensures |r| <= |hits| && r == hits[|hits| - |r|..]
    ensures limit.None? || limit == Some(0) ==> r == hits
    ensures limit.Some? && limit.value > 0 ==>
      |r| == (if |hits| > limit.value then limit.value else |hits|)
    ensures limit.Some? && limit.value < 0 ==>
      |r| == (if |hits| + limit.value > 0 then |hits| + limit.value else 0)
  {
    match limit
    case None => hits
    case Some(l) =>
      if l != 0 && |hits| > l then
        (if l > 0 then hits[|hits| - l..] else hits[if -l < |hits| then -l else |hits|..])
      else hits
  }

  /** A suffix of an increasing sequence is increasing, and every element
      in front of it is smaller than every element in it. */
  lemma SuffixKeepsLatest(xs: seq<nat>, d: nat)
    requires Increasing(xs) && d <= |xs|
    ensures Increasing(xs[d..])
    ensures forall x, k :: x in xs && x !in xs[d..] && 0 <= k < |xs| - d ==> x < xs[d..][k]
  {
    var r := xs[d..];
    forall x, k | x in xs && x !in r && 0 <= k < |r|
      ensures x < r[k]
    {
      var j :| 0 <= j < |xs| && xs[j] == x;
      assert j < d;
      assert r[k] == xs[d + k];
    }
  }

  /** Whatever the limit, what it keeps of an increasing sequence is its
      latest part: every element dropped is smaller than every element kept. */
  lemma LimitKeepsLatest(xs: seq<nat>, limit: Option<int>)
    requires Increasing(xs)
    ensures var r := Limit(xs, limit);
      && Increasing(r)
      && (forall x, k :: x in xs && x !in r && 0 <= k < |r| ==> x < r[k])
  {
    SuffixKeepsLatest(xs, |xs| - |Limit(xs, limit)|);
  }

  /** Kinds of printed entries. */
  datatype Kind = Before | Match | After

  /** One printed entry: a line index and the role it is printed in. */
  datatype Event = Event(index: nat, kind: Kind)

  /** What one match prints: its before-context indices, the match itself,
      and its after-context indices. */
  datatype Block = Block(before: seq<nat>, hit: nat, after: seq<nat>)

  function Elems(xs: seq<nat>): set<nat> {
    set x | x in xs
  }

  /** The indices a block prints. */
  function Printed(b: Block): set<nat> {
    Elems(b.before) + {b.hit} + Elems(b.after)
  }

  /** The shown set once the blocks `bs` have been printed on top of
      `shown`. */
  function ShownAfter(bs: seq<Block>, shown: set<nat>): set<nat>
    decreases |bs|
  {
    if bs == [] then shown else ShownAfter(bs[1..], shown + Printed(bs[0]))
  }

  /** The lines a context loop may print: the non-blank ones. */
  function Visible(recs: seq<Option<Record>>): (r: set<nat>)
    ensures forall i :: i in r <==> 0 <= i < |recs| && recs[i].Some?
  {
    set i: nat | i < |recs| && recs[i].Some?
  }

  /** In terms of the raw lines: the visible lines are the non-blank ones. */
  lemma VisibleLines(lines: seq<string>)
    ensures forall i :: i in Visible(Records(lines)) <==> 0 <= i < |lines| && !IsBlank(lines[i])
  {
  }

  /** One context loop, `for i in range(lo, hi)`: a line is printed, and
      added to the shown set, when it has not been shown and is not blank
      (is in `visible`). */
  function ContextRun(visible: set<nat>, lo: nat, hi: nat, shown: set<nat>): (r: (seq<nat>, set<nat>))
    ensures Increasing(r.0)
    ensures forall k :: 0 <= k < |r.0| ==> lo <= r.0[k] < hi
    ensures forall i :: lo <= i < hi ==> (i in r.0 <==> i !in shown && i in visible)
    ensures r.1 == shown + Elems(r.0)
    decreases hi - lo
  {
    if lo >= hi then ([], shown)
    else if lo !in shown && lo in visible then
      var rest := ContextRun(visible, lo + 1, hi, shown + {lo});
      IncreasingCons(lo, rest.0);
      assert Elems([lo] + rest.0) == {lo} + Elems(rest.0);
      ([lo] + rest.0, rest.1)
    else
      ContextRun(visible, lo + 1, hi, shown)
  }

  /** First index of the before-context window; the window is empty when
      `before <= 0`. */
  function BeforeLo(m: nat, before: int): nat {
    if before > 0 then (if m - before > 0 then m - before else 0) else m
  }

  /** Last index of the after-context window in a file of `n` lines; the
      window is empty when `after <= 0`. */
  function AfterHi(n: nat, m: nat, after: int): nat
    requires m < n
  {
    if after > 0 then (if m + after < n then m + after else n - 1) else m
  }

  /** The shape of a rendered block in a file of `n` lines, given the
      indices `seen` shown before it: context stays inside the windows
      `[max(0, m-before), m)` and `(m, min(n-1, m+after)]`, in order, and a
      window line is shown exactly when it was not shown before and is not
      blank. */
  predicate WindowOk(n: nat, visible: set<nat>, b: Block, before: int, after: int, seen: set<nat>)
    requires b.hit < n
  {
    var m := b.hit;
    var lo := BeforeLo(m, before);
    var hi := AfterHi(n, m, after);
    && Increasing(b.before) && Increasing(b.after)
    && (forall k :: 0 <= k < |b.before| ==> lo <= b.before[k] < m)
    && (forall k :: 0 <= k < |b.after| ==> m < b.after[k] <= hi)
    && (forall i {:trigger i in b.before} :: lo <= i < m ==> (i in b.before <==> i !in seen && i in visible))
    && (forall i {:trigger i in b.after} :: m < i <= hi ==> (i in b.after <==> i !in seen && i in visible))
  }

  /** The block for match `m` in a file of `n` lines: before-context, the
      match itself (printed whatever the shown set says), then after-context. */
  function RenderBlock(n: nat, visible: set<nat>, m: nat, before: int, after: int, shown: set<nat>): (r: (Block, set<nat>))
    requires m < n
    ensures r.0.hit == m
    ensures WindowOk(n, visible, r.0, before, after, shown)
    ensures r.1 == shown + Printed(r.0)
  {
    var b := if before > 0 then ContextRun(visible, BeforeLo(m, before), m, shown) else ([], shown);
    var withHit := b.1 + {m};
    var endIdx := if m + after + 1 < n then m + after + 1 else n;
    var a := if after > 0 then ContextRun(visible, m + 1, endIdx, withHit) else ([], withHit);
    assert forall i :: m < i <= AfterHi(n, m, after) ==> (i !in withHit <==> i !in shown);
    (Block(b.0, m, a.0), a.1)
  }

  /** Every block of `bs` is laid out as `WindowOk` demands, against what
      `shown` and the blocks before it printed. */
  predicate Laid(n: nat, visible: set<nat>, bs: seq<Block>, before: int, after: int, shown: set<nat>)
    decreases |bs|
  {
    bs == [] ||
      (bs[0].hit < n
       && WindowOk(n, visible, bs[0], before, after, shown)
       && Laid(n, visible, bs[1..], before, after, shown + Printed(bs[0])))
  }

  /** Renders the matches in order, threading one shown set through all of
      them: each block is laid out against everything printed before it. */
  function Render(n: nat, visible: set<nat>, hits: seq<nat>, before: int, after: int, shown: set<nat>): (r: (seq<Block>, set<nat>))
    requires forall k :: 0 <= k < |hits| ==> hits[k] < n
    ensures |r.0| == |hits|
    ensures forall k :: 0 <= k < |hits| ==> r.0[k].hit == hits[k]
    ensures r.1 == ShownAfter(r.0, shown)
    ensures Laid(n, visible, r.0, before, after, shown)
    decreases |hits|
  {
    if hits == [] then ([], shown)
    else
      var first := RenderBlock(n, visible, hits[0], before, after, shown);
      var rest := Render(n, visible, hits[1..], before, after, first.1);
      var bs := [first.0] + rest.0;
      assert bs[1..] == rest.0;
      (bs, rest.1)
  }

  /** The printed entries of a sequence of indices, all of one kind. */
  function Tag(xs: seq<nat>, kind: Kind): (r: seq<Event>)
    ensures |r| == |xs|
    ensures forall k :: 0 <= k < |xs| ==> r[k] == Event(xs[k], kind)
  {
    seq(|xs|, k requires 0 <= k < |xs| => Event(xs[k], kind))
  }

  /** What one block prints, in order. */
  function BlockEvents(b: Block): seq<Event> {
    Tag(b.before, Before) + [Event(b.hit, Match)] + Tag(b.after, After)
  }

  /** Everything the blocks print, in order (separators omitted). */
  function Events(bs: seq<Block>): seq<Event>
    decreases |bs|
  {
    if bs == [] then [] else BlockEvents(bs[0]) + Events(bs[1..])
  }

  /** No context entry repeats a line printed earlier, whether that earlier
      entry was context or a match. */
  predicate ContextFresh(es: seq<Event>) {
    forall q, p :: 0 <= q < p < |es| && es[p].kind != Match ==> es[q].index != es[p].index
  }

  /** No context entry prints a line of `seen`. */
  predicate ContextAvoids(es: seq<Event>, seen: set<nat>) {
    forall p :: 0 <= p < |es| && es[p].kind != Match ==> es[p].index !in seen
  }

  /** The lines a sequence of entries prints. */
  function Indices(es: seq<Event>): (r: set<nat>)
    ensures forall i :: i in r <==> exists p :: 0 <= p < |es| && es[p].index == i
  {
    set p | 0 <= p < |es| :: es[p].index
  }

  lemma BlockIndices(b: Block)
    ensures Indices(BlockEvents(b)) == Printed(b)
  {
    var es := BlockEvents(b);
    var nb := |b.before|;
    forall i | i in Printed(b) ensures i in Indices(es) {
      if i in b.before {
        var k :| 0 <= k < nb && b.before[k] == i;
        assert es[k].index == i;
      } else if i == b.hit {
        assert es[nb].index == i;
      } else {
        var k :| 0 <= k < |b.after| && b.after[k] == i;
        assert es[nb + 1 + k].index == i;
      }
    }
  }

  /** A block laid out against `seen` prints no context line twice, and no
      context line of `seen`. */
  lemma BlockFresh(n: nat, visible: set<nat>, b: Block, before: int, after: int, seen: set<nat>)
    requires b.hit < n
    requires WindowOk(n, visible, b, before, after, seen)
    ensures ContextFresh(BlockEvents(b))
    ensures ContextAvoids(BlockEvents(b), seen)
  {
    var es := BlockEvents(b);
    var nb := |b.before|;
    var na := |b.after|;
    assert |es| == nb + 1 + na;
    forall p | 0 <= p < |es| && es[p].kind != Match
      ensures es[p].index !in seen
    {
      if p < nb {
        assert es[p].index == b.before[p] && b.before[p] in b.before;
      } else {
        assert p > nb;
        assert es[p].index == b.after[p - nb - 1] && b.after[p - nb - 1] in b.after;
      }
    }
    forall q, p | 0 <= q < p < |es| && es[p].kind != Match
      ensures es[q].index != es[p].index
    {
      if p < nb {
      } else if q < nb {
        assert es[q].index < b.hit < es[p].index;
      } else if q == nb {
        assert es[q].index < es[p].index;
      } else {
        assert es[q].index == b.after[q - nb - 1];
      }
    }
  }

  lemma ContextFreshAppend(a: seq<Event>, c: seq<Event>, seen: set<nat>)
    requires ContextFresh(a) && ContextAvoids(a, seen)
    requires ContextFresh(c) && ContextAvoids(c, seen + Indices(a))
    ensures ContextFresh(a + c) && ContextAvoids(a + c, seen)
  {
    var es := a + c;
    forall q, p | 0 <= q < p < |es| && es[p].kind != Match
      ensures es[q].index != es[p].index
    {
      if p >= |a| && q < |a| {
        assert es[q].index in Indices(a);
        assert es[p] == c[p - |a|];
      } else if q >= |a| {
        assert es[q] == c[q - |a|] && es[p] == c[p - |a|];
      }
    }
    forall p | 0 <= p < |es| && es[p].kind != Match
      ensures es[p].index !in seen
    {
      if p >= |a| {
        assert es[p] == c[p - |a|];
      }
    }
  }

  /** The deduplication the shown set buys: in everything the blocks print,
      a context line is never a line already printed, in this search or in
      `shown` before it. A match line, on the other hand, is printed even
      when it was shown before as context. */
  lemma {:induction false} NoContextRepeats(n: nat, visible: set<nat>, bs: seq<Block>, before: int, after: int, shown: set<nat>)
    requires Laid(n, visible, bs, before, after, shown)
    ensures ContextFresh(Events(bs))
    ensures ContextAvoids(Events(bs), shown)
    decreases |bs|
  {
    if bs != [] {
      var b := bs[0];
      BlockFresh(n, visible, b, before, after, shown);
      BlockIndices(b);
      NoContextRepeats(n, visible, bs[1..], before, after, shown + Printed(b));
      ContextFreshAppend(BlockEvents(b), Events(bs[1..]), shown);
    }
  }

  /** A `blast` query: the matcher built from the term and the
      `--case-sensitive`/`--regex` flags, `--limit`, `--before`, `--after`. */
  datatype Query = Query(matcher: Matcher, limit: Option<int>, before: int, after: int)

  /** What the search reports: no match, or the blocks of the matches kept,
      the number of which is the count announced in the header line. */
  datatype Outcome = NoMatches | Found(blocks: seq<Block>)

  /** The match index of each block, in order. */
  function Hits(bs: seq<Block>): (r: seq<nat>)
    ensures |r| == |bs|
    ensures forall k :: 0 <= k < |bs| ==> r[k] == bs[k].hit
  {
    seq(|bs|, k requires 0 <= k < |bs| => bs[k].hit)
  }

  /** The blocks for the matches `hits`, rendered with a shown set that
      starts empty. */
  function Blocks(n: nat, visible: set<nat>, hits: seq<nat>, before: int, after: int): (bs: seq<Block>)
    requires forall k :: 0 <= k < |hits| ==> hits[k] < n
    ensures Hits(bs) == hits
  {
    var bs := Render(n, visible, hits, before, after, {}).0;
    assert Hits(bs) == hits;
    bs
  }

  /** The blocks are laid out one after another against a shown set that
      starts empty, and no line is printed twice as context. */
  lemma BlocksLayout(n: nat, visible: set<nat>, hits: seq<nat>, before: int, after: int)
    requires forall k :: 0 <= k < |hits| ==> hits[k] < n
    ensures var bs := Blocks(n, visible, hits, before, after);
      Laid(n, visible, bs, before, after, {}) && ContextFresh(Events(bs))
  {
    NoContextRepeats(n, visible, Blocks(n, visible, hits, before, after), before, after, {});
  }

  /** Applies the limit to the matches `all` of a file of `n` lines and
      renders what is kept. What is shown is always the latest part of the
      matches. */
  function Present(n: nat, visible: set<nat>, all: seq<nat>, q: Query): (r: Outcome)
    requires forall k :: 0 <= k < |all| ==> all[k] < n
    ensures r.NoMatches? <==> Limit(all, q.limit) == []
    ensures r.Found? ==> Hits(r.blocks) == Limit(all, q.limit)
    ensures r.Found? ==> r.blocks != [] && |r.blocks| <= |all| && Hits(r.blocks) == all[|all| - |r.blocks|..]
    ensures q.limit.None? || q.limit.value >= 0 ==> (r.NoMatches? <==> all == [])
    ensures r.Found? && (q.limit.None? || q.limit == Some(0)) ==> Hits(r.blocks) == all
    ensures r.Found? && q.limit.Some? && q.limit.value > 0 ==> |r.blocks| <= q.limit.value
  {
    var hits := Limit(all, q.limit);
    if hits == [] then NoMatches
    else Found(Blocks(n, visible, hits, q.before, q.after))
  }

  /** The search over the log file's lines. What it shows is the
      latest part of the scan, one block per match, each laid out against
      what was printed before it. */
  function Run(recs: seq<Option<Record>>, q: Query): (r: Outcome)
    ensures r.NoMatches? <==> Limit(Scan(recs, q.matcher), q.limit) == []
    ensures r.Found? ==> Hits(r.blocks) == Limit(Scan(recs, q.matcher), q.limit)
  {
    Present(|recs|, Visible(recs), Scan(recs, q.matcher), q)
  }

  /** What the limit leaves of the scan, in the terms of the `limit`
      option: the latest matches, all of them when there is no limit, and
      at most `limit` of them under a positive one. */
  lemma RunKeepsLatest(recs: seq<Option<Record>>, q: Query)
    ensures var r := Run(recs, q); var all := Scan(recs, q.matcher);
      r.Found? ==> r.blocks != [] && |r.blocks| <= |all| && Hits(r.blocks) == all[|all| - |r.blocks|..]
    ensures var r := Run(recs, q);
      r.Found? && q.limit.Some? && q.limit.value > 0 ==> |r.blocks| <= q.limit.value
    ensures var r := Run(recs, q);
      r.Found? && (q.limit.None? || q.limit == Some(0)) ==> Hits(r.blocks) == Scan(recs, q.matcher)
  {
  }

  /** Each block of a search is laid out against what the blocks before it
      printed, and no line is printed twice as context. */
  lemma RunLayout(recs: seq<Option<Record>>, q: Query)
    ensures var r := Run(recs, q);
      r.Found? ==> Laid(|recs|, Visible(recs), r.blocks, q.before, q.after, {}) && ContextFresh(Events(r.blocks))
  {
    PresentLayout(|recs|, Visible(recs), Scan(recs, q.matcher), q);
  }

  lemma PresentLayout(n: nat, visible: set<nat>, all: seq<nat>, q: Query)
    requires forall k :: 0 <= k < |all| ==> all[k] < n
    ensures var r := Present(n, visible, all, q);
      r.Found? ==> Laid(n, visible, r.blocks, q.before, q.after, {}) && ContextFresh(Events(r.blocks))
  {
    var hits := Limit(all, q.limit);
    if hits != [] {
      forall k | 0 <= k < |hits|
        ensures hits[k] < n
      {
        assert hits[k] == all[|all| - |hits| + k];
      }
      BlocksLayout(n, visible, hits, q.before, q.after);
    }
  }

  /** `hs` are matches of `m` among `recs`, in file order. */
  predicate AllHits(recs: seq<Option<Record>>, m: Matcher, hs: seq<nat>) {
    Increasing(hs) && forall k :: 0 <= k < |hs| ==> IsHit(recs, m, hs[k])
  }

  /** Every block of a search is a match, and the blocks come in file
      order. */
  lemma SearchShowsMatches(recs: seq<Option<Record>>, q: Query)
    ensures var r := Run(recs, q); r.Found? ==> AllHits(recs, q.matcher, Hits(r.blocks))
  {
    var r := Run(recs, q);
    if r.Found? {
      ScanSuffix(recs, q.matcher, r.blocks);
    }
  }

  /** Blocks whose matches are a suffix of the scan show matches only, in
      file order. */
  lemma ScanSuffix(recs: seq<Option<Record>>, m: Matcher, bs: seq<Block>)
    requires var all := Scan(recs, m); |bs| <= |all| && Hits(bs) == all[|all| - |bs|..]
    ensures AllHits(recs, m, Hits(bs))
  {
    var all := Scan(recs, m);
    var d := |all| - |bs|;
    SuffixKeepsLatest(all, d);
    forall k | 0 <= k < |all| - d
      ensures IsHit(recs, m, all[d..][k])
    {
      assert all[d..][k] == all[d + k];
    }
  }

  /** Without a negative limit the search reports no match exactly when no
      non-blank line's command passes the test. */
  lemma SearchNoMatches(recs: seq<Option<Record>>, q: Query)
    requires q.limit.None? || q.limit.value >= 0
    ensures Run(recs, q).NoMatches? <==> forall i :: 0 <= i < |recs| ==> !IsHit(recs, q.matcher, i)
  {
    var all := Scan(recs, q.matcher);
    if all != [] {
      assert IsHit(recs, q.matcher, all[0]);
    }
  }

  /** Which matches the search shows: with no limit (or a zero one) all of
      them, and under any limit a match left out comes before every match
      shown. */
  lemma SearchSelection(recs: seq<Option<Record>>, q: Query)
    ensures var r := Run(recs, q);
      r.Found? && (q.limit.None? || q.limit == Some(0)) ==>
        forall i :: 0 <= i < |recs| && IsHit(recs, q.matcher, i) ==> i in Hits(r.blocks)
    ensures var r := Run(recs, q);
      r.Found? ==> forall i, k ::
        0 <= i < |recs| && IsHit(recs, q.matcher, i) && i !in Hits(r.blocks) && 0 <= k < |r.blocks|
        ==> i < r.blocks[k].hit
  {
    var r := Run(recs, q);
    if r.Found? {
      var all := Scan(recs, q.matcher);
      var d := |all| - |r.blocks|;
      SuffixKeepsLatest(all, d);
      assert Hits(r.blocks) == all[d..];
      forall i, k | 0 <= i < |recs| && IsHit(recs, q.matcher, i) && i !in Hits(r.blocks) && 0 <= k < |r.blocks|
        ensures i < r.blocks[k].hit
      {
        assert i in all;
        assert r.blocks[k].hit == all[d..][k];
      }
    }
  }
}
