/** Worked cases of the search: the literal test on a mixed-case term, the
    deduplicated layout of a small file, and the match line that is printed
    again after being shown as context. */
module SearchCases {
  import opened Wrappers
  import opened Text
  import opened LogFormat
  import opened Search

  /** A case-sensitive literal match is also a case-insensitive one. */
  lemma SensitiveImpliesInsensitive(term: string, cmd: string)
    requires Accepts(Literal(term, true), cmd)
    ensures Accepts(Literal(term, false), cmd)
  {
    ContainsLower(cmd, term);
  }

  /** A term holding a character the command lacks is not in it. */
  lemma MissingChar(s: string, sub: string, c: char)
    requires c in sub && c !in s
    ensures !Contains(s, sub)
  {
  }

  /** `FOO` finds `foobar` only when the search ignores case. */
  lemma UpperTermLowerCommand()
    ensures !Accepts(Literal("FOO", true), "foobar")
    ensures Accepts(Literal("FOO", false), "foobar")
  {
    assert Lower("FOO") == "foo";
    assert OccursAt(Lower("foobar"), "foo", 0);
    assert "FOO"[0] == 'F';
    MissingChar("foobar", "FOO", 'F');
  }

  /** A context window of one line holds that line exactly when it is
      visible and not yet shown. */
  lemma ContextRunOne(visible: set<nat>, lo: nat, shown: set<nat>)
    ensures ContextRun(visible, lo, lo + 1, shown).0 == (if lo !in shown && lo in visible then [lo] else [])
  {
    if lo !in shown && lo in visible {
      assert ContextRun(visible, lo + 1, lo + 1, shown + {lo}).0 == [];
      assert [lo] + [] == [lo];
    } else {
      assert ContextRun(visible, lo + 1, lo + 1, shown).0 == [];
    }
  }

  lemma FirstBlock()
    ensures RenderBlock(4, {0, 1, 2, 3}, 0, 1, 1, {}) == (Block([], 0, [1]), {0, 1})
  {
    var v: set<nat> := {0, 1, 2, 3};
    var s: set<nat> := {};
    ContextRunOne(v, 1, s + {0});
    assert BeforeLo(0, 1) == 0;
    assert AfterHi(4, 0, 1) == 1;
    var b := ContextRun(v, 0, 0, s);
    assert b == ([], s);
    var a := ContextRun(v, 1, 2, s + {0});
    assert a.0 == [1];
    assert a.1 == {0, 1};
    var r := RenderBlock(4, v, 0, 1, 1, s);
    assert r.0 == Block([], 0, [1]);
  }

  lemma SecondBlock()
    ensures RenderBlock(4, {0, 1, 2, 3}, 2, 1, 1, {0, 1}) == (Block([], 2, [3]), {0, 1, 2, 3})
  {
    var v: set<nat> := {0, 1, 2, 3};
    var s: set<nat> := {0, 1};
    ContextRunOne(v, 1, s);
    ContextRunOne(v, 3, s + {2});
    assert BeforeLo(2, 1) == 1;
    var b := ContextRun(v, 1, 2, s);
    assert b == ([], s);
    var a := ContextRun(v, 3, 4, s + {2});
    assert a.0 == [3];
    assert a.1 == {0, 1, 2, 3};
    var r := RenderBlock(4, v, 2, 1, 1, s);
    assert r.0 == Block([], 2, [3]);
  }

  /** The two blocks of the four-line case below. */
  lemma FourLinesRender()
    ensures Render(4, {0, 1, 2, 3}, [0, 2], 1, 1, {}).0 == [Block([], 0, [1]), Block([], 2, [3])]
  {
    FirstBlock();
    FourLinesRenderTail();
    assert [0, 2][1..] == [2];
  }

  lemma FourLinesRenderTail()
    ensures Render(4, {0, 1, 2, 3}, [2], 1, 1, {0, 1}).0 == [Block([], 2, [3])]
  {
    SecondBlock();
    assert [2][1..] == [];
  }

  /** Of the indices below 4, exactly 0 and 2 pass. */
  lemma SelectZeroTwo(p: nat -> bool)
    requires p(0) && !p(1) && p(2) && !p(3)
    ensures Select(4, p) == [0, 2]
  {
    assert Select(0, p) == [];
    assert Select(1, p) == [0];
    assert Select(2, p) == [0];
    assert Select(3, p) == [0, 2];
  }

  /** Matches only at 0 and 2 of four lines scan to exactly `[0, 2]`. */
  lemma FourLinesScan(recs: seq<Option<Record>>, m: Matcher)
    requires |recs| == 4
    requires IsHit(recs, m, 0) && !IsHit(recs, m, 1) && IsHit(recs, m, 2) && !IsHit(recs, m, 3)
    ensures Scan(recs, m) == [0, 2]
  {
    SelectZeroTwo(i => IsHit(recs, m, i));
  }

  lemma FourVisible(recs: seq<Option<Record>>)
    requires |recs| == 4
    requires forall i :: 0 <= i < 4 ==> recs[i].Some?
    ensures Visible(recs) == {0, 1, 2, 3}
  {
    var v := Visible(recs);
    assert 0 in v && 1 in v && 2 in v && 3 in v;
    forall i | i in v
      ensures i in {0, 1, 2, 3}
    {
      assert i < 4;
    }
  }

  lemma FourEvents()
    ensures Events([Block([], 0, [1]), Block([], 2, [3])])
      == [Event(0, Match), Event(1, After), Event(2, Match), Event(3, After)]
  {
    var bs := [Block([], 0, [1]), Block([], 2, [3])];
    assert bs[1..] == [Block([], 2, [3])];
    assert bs[1..][1..] == [];
  }

  lemma FourPresent(m: Matcher)
    ensures Present(4, {0, 1, 2, 3}, [0, 2], Query(m, None, 1, 1)) == Found([Block([], 0, [1]), Block([], 2, [3])])
  {
    FourLinesRender();
    assert Limit([0, 2], None) == [0, 2];
  }

  /** Four non-blank lines of which only the first and the third match
      (commands `foo`, `bar`, `foobar` and `baz` searched for `foo`, say),
      with one line of context either side: lines 0 to 3 are each printed
      once, line 1 as context of the first match only (it is already shown
      when the second match looks back). */
  lemma FourLines(recs: seq<Option<Record>>, m: Matcher)
    requires |recs| == 4
    requires forall i :: 0 <= i < 4 ==> recs[i].Some?
    requires IsHit(recs, m, 0) && !IsHit(recs, m, 1) && IsHit(recs, m, 2) && !IsHit(recs, m, 3)
    ensures Run(recs, Query(m, None, 1, 1)) == Found([Block([], 0, [1]), Block([], 2, [3])])
    ensures Events(Run(recs, Query(m, None, 1, 1)).blocks)
      == [Event(0, Match), Event(1, After), Event(2, Match), Event(3, After)]
  {
    FourVisible(recs);
    FourLinesScan(recs, m);
    FourPresent(m);
    FourEvents();
  }

  lemma AdjacentFirst()
    ensures RenderBlock(2, {0, 1}, 0, 0, 1, {}) == (Block([], 0, [1]), {0, 1})
  {
    var v: set<nat> := {0, 1};
    var s: set<nat> := {};
    ContextRunOne(v, 1, s + {0});
    var a := ContextRun(v, 1, 2, s + {0});
    assert a.0 == [1];
    assert a.1 == {0, 1};
  }

  lemma AdjacentSecond()
    ensures RenderBlock(2, {0, 1}, 1, 0, 1, {0, 1}).0 == Block([], 1, [])
  {
  }

  lemma AdjacentBlocks()
    ensures Render(2, {0, 1}, [0, 1], 0, 1, {}).0 == [Block([], 0, [1]), Block([], 1, [])]
  {
    AdjacentFirst();
    AdjacentSecond();
    assert [0, 1][1..] == [1];
    assert [1][1..] == [];
  }

  lemma AdjacentEvents()
    ensures Events([Block([], 0, [1]), Block([], 1, [])])
      == [Event(0, Match), Event(1, After), Event(1, Match)]
  {
    var bs := [Block([], 0, [1]), Block([], 1, [])];
    assert bs[1..] == [Block([], 1, [])];
    assert bs[1..][1..] == [];
  }

  /** With no before-context and one line of after-context, a match on the
      line right after another match is printed twice: first as after-context
      of the earlier match, then as a match itself. */
  lemma MatchPrintedAgain()
    ensures Events(Render(2, {0, 1}, [0, 1], 0, 1, {}).0)
      == [Event(0, Match), Event(1, After), Event(1, Match)]
  {
    AdjacentBlocks();
    AdjacentEvents();
  }
}
