/** The handful of Python string operations the monitor relies on:
    `str.isspace`, `str.strip`, `str.find` of one character, the substring
    test `sub in s`, `str.lower` and `file.readlines`. */
module Text {

  /** Python's `str.isspace` for one character: the ASCII whitespace, the
      four information separators and the Unicode space separators. */
  predicate IsSpace(c: char) {
    || c == ' ' || c == '\t' || c == '\n' || c == '\r'
    || c == '\U{B}' || c == '\U{C}'
    || ('\U{1C}' <= c <= '\U{1F}')
    || c == '\U{85}' || c == '\U{A0}' || c == '\U{1680}'
    || ('\U{2000}' <= c <= '\U{200A}')
    || c == '\U{2028}' || c == '\U{2029}' || c == '\U{202F}'
    || c == '\U{205F}' || c == '\U{3000}'
  }

  predicate AllSpace(s: string) {
    forall i :: 0 <= i < |s| ==> IsSpace(s[i])
  }

  /** A string that `strip` leaves alone: empty, or non-space at both ends. */
  predicate Stripped(s: string) {
    s == [] || (!IsSpace(s[0]) && !IsSpace(s[|s| - 1]))
  }

  /** `str.lstrip()`: the longest suffix that does not start with whitespace. */
  function TrimLeft(s: string): (r: string)
    ensures |r| <= |s| && r == s[|s| - |r|..]
    ensures r == [] || !IsSpace(r[0])
    ensures AllSpace(s[..|s| - |r|])
  {
    if |s| > 0 && IsSpace(s[0]) then TrimLeft(s[1..]) else s
  }

  /** `str.rstrip()`: the longest prefix that does not end with whitespace. */
  function TrimRight(s: string): (r: string)
    ensures |r| <= |s| && r == s[..|r|]
    ensures r == [] || !IsSpace(r[|r| - 1])
    ensures AllSpace(s[|r|..])
  {
    if |s| > 0 && IsSpace(s[|s| - 1]) then
      var r := TrimRight(s[..|s| - 1]);
      assert s[|r|..] == s[..|s| - 1][|r|..] + [s[|s| - 1]];
      AllSpaceAppend(s[..|s| - 1][|r|..], [s[|s| - 1]]);
      r
    else s
  }

  /** `str.strip()`. */
  function Strip(s: string): (r: string)
    ensures Stripped(r)
    ensures r == [] <==> AllSpace(s)
    ensures |r| <= |s|
    ensures forall c :: c in r ==> c in s
  {
    var t := TrimLeft(s);
    var r := TrimRight(t);
    assert t != [] ==> !AllSpace(s) by {
      if t != [] {
        assert t[0] == s[|s| - |t|];
      }
    }
    assert t == [] ==> AllSpace(s) by {
      if t == [] {
        assert s[..|s|] == s;
      }
    }
    assert r == [] ==> AllSpace(t) by {
      if r == [] {
        assert t[0..] == t;
      }
    }
    assert r != [] ==> r[0] == t[0];
    assert forall c :: c in r ==> c in t;
    r
  }

  lemma AllSpaceAppend(a: string, b: string)
    requires AllSpace(a) && AllSpace(b)
    ensures AllSpace(a + b)
  {
    forall i | 0 <= i < |a + b|
      ensures IsSpace((a + b)[i])
    {
      if i < |a| {
        assert (a + b)[i] == a[i];
      } else {
        assert (a + b)[i] == b[i - |a|];
      }
    }
  }

  /** A sequence cut at two points is the concatenation of its three parts. */
  lemma CutThree<T>(s: seq<T>, a: nat, t: seq<T>, b: nat)
    requires a <= |s| && t == s[a..] && b <= |t|
    ensures s == s[..a] + t[..b] + t[b..]
  {
    assert t == t[..b] + t[b..];
    assert s == s[..a] + t;
  }

  lemma Regroup<T>(a: seq<T>, b: seq<T>, c: seq<T>, d: seq<T>)
    ensures (a + b + c) + d == a + b + (c + d)
  {
  }

  /** Every string is its stripped form with whitespace around it. */
  lemma StripSplit(s: string) returns (w: string, w': string)
    ensures AllSpace(w) && AllSpace(w')
    ensures s == w + Strip(s) + w'
  {
    var t := TrimLeft(s);
    var r := TrimRight(t);
    w := s[..|s| - |t|];
    w' := t[|r|..];
    CutThree(s, |s| - |t|, t, |r|);
  }

  /** Appending whitespace (a newline, say) does not change the stripped form. */
  lemma StripTrailing(s: string, w: string)
    requires AllSpace(w)
    ensures Strip(s + w) == Strip(s)
  {
    var w0, w1 := StripSplit(s);
    var c := Strip(s);
    AllSpaceAppend(w1, w);
    Regroup(w0, c, w1, w);
    StripFrame(w0, c, w1 + w);
  }

  lemma {:induction false} TrimLeftSpaces(w: string, t: string)
    requires AllSpace(w)
    ensures TrimLeft(w + t) == TrimLeft(t)
    decreases |w|
  {
    if w != [] {
      assert (w + t)[1..] == w[1..] + t;
      TrimLeftSpaces(w[1..], t);
    } else {
      assert w + t == t;
    }
  }

  lemma {:induction false} TrimRightSpaces(t: string, w: string)
    requires AllSpace(w)
    ensures TrimRight(t + w) == TrimRight(t)
    decreases |w|
  {
    if w != [] {
      var n := |w| - 1;
      assert (t + w)[..|t + w| - 1] == t + w[..n];
      TrimRightSpaces(t, w[..n]);
    } else {
      assert t + w == t;
    }
  }

  /** `strip` removes exactly the surrounding whitespace: whatever blanks
      are put around an already stripped string, stripping gives it back. */
  lemma StripFrame(w: string, c: string, w': string)
    requires AllSpace(w) && AllSpace(w') && Stripped(c)
    ensures Strip(w + c + w') == c
  {
    assert w + c + w' == w + (c + w');
    TrimLeftSpaces(w, c + w');
    if c == [] {
      assert c + w' == w';
      TrimLeftSpaces(w', []);
      assert w' + [] == w';
    } else {
      assert TrimLeft(c + w') == c + w' by {
        assert (c + w')[0] == c[0];
      }
      TrimRightSpaces(c, w');
    }
  }

  lemma StripIdempotent(s: string)
    ensures Strip(Strip(s)) == Strip(s)
  {
    var c := Strip(s);
    assert TrimLeft(c) == c;
    assert TrimRight(c) == c;
  }

  /** Python's `s.find(c)` for a single character: the first index of `c`,
      or -1 when `c` does not occur. */
  function Find(s: string, c: char): (r: int)
    ensures -1 <= r < |s|
    ensures r == -1 <==> c !in s
    ensures r >= 0 ==> s[r] == c && c !in s[..r]
  {
    if |s| == 0 then -1
    else if s[0] == c then 0
    else
      var k := Find(s[1..], c);
      assert s[1..][..k + 1] == s[1..k + 2] by {
        if k >= 0 {
          assert s[1..][..k + 1] == s[1..][0..k + 1];
        }
      }
      if k < 0 then -1 else k + 1
  }

  /** The one index holding `c` with no `c` before it is what `find` returns. */
  lemma FindIsFirst(s: string, c: char, k: int)
    requires 0 <= k < |s| && s[k] == c && c !in s[..k]
    ensures Find(s, c) == k
  {
    var r := Find(s, c);
    assert s[k] in s;
    assert forall j :: 0 <= j < k ==> s[j] != c by {
      forall j | 0 <= j < k
        ensures s[j] != c
      {
        assert s[..k][j] == s[j];
      }
    }
    assert forall j :: 0 <= j < r ==> s[j] != c by {
      forall j | 0 <= j < r
        ensures s[j] != c
      {
        assert s[..r][j] == s[j];
      }
    }
  }

  predicate OccursAt(s: string, sub: string, i: int) {
    0 <= i && i + |sub| <= |s| && s[i..i + |sub|] == sub
  }

  /** Python's substring test `sub in s`. */
  function Contains(s: string, sub: string): (r: bool)
    ensures r <==> exists i :: OccursAt(s, sub, i)
    decreases |s|
  {
    if sub <= s then
      assert OccursAt(s, sub, 0);
      true
    else if |s| == 0 then
      false
    else
      ContainsShift(s, sub);
      Contains(s[1..], sub)
  }

  /** An occurrence past index 0 is an occurrence in the tail. */
  lemma ContainsShift(s: string, sub: string)
    requires |s| > 0 && !(sub <= s)
    ensures (exists i :: OccursAt(s, sub, i)) <==> (exists i :: OccursAt(s[1..], sub, i))
  {
    if exists i :: OccursAt(s[1..], sub, i) {
      var i :| OccursAt(s[1..], sub, i);
      assert s[1..][i..i + |sub|] == s[i + 1..i + 1 + |sub|];
      assert OccursAt(s, sub, i + 1);
    }
    if exists i :: OccursAt(s, sub, i) {
      var i :| OccursAt(s, sub, i);
      assert i != 0;
      assert s[1..][i - 1..i - 1 + |sub|] == s[i..i + |sub|];
      assert OccursAt(s[1..], sub, i - 1);
    }
  }

  /** A string that occurs in `b` occurs in every string that ends with `b`. */
  lemma ContainsInSuffix(a: string, b: string, sub: string)
    requires Contains(b, sub)
    ensures Contains(a + b, sub)
  {
    var i :| OccursAt(b, sub, i);
    assert (a + b)[|a| + i..|a| + i + |sub|] == b[i..i + |sub|];
    assert OccursAt(a + b, sub, |a| + i);
  }

  /** A string that occurs in `a` occurs in every string that starts with `a`. */
  lemma ContainsInPrefix(a: string, b: string, sub: string)
    requires Contains(a, sub)
    ensures Contains(a + b, sub)
  {
    var i :| OccursAt(a, sub, i);
    assert (a + b)[i..i + |sub|] == a[i..i + |sub|];
    assert OccursAt(a + b, sub, i);
  }

  /** A string occurs in anything built around it. */
  lemma ContainsMiddle(a: string, sub: string, b: string)
    ensures Contains(a + sub + b, sub)
  {
    assert (a + sub + b)[|a|..|a| + |sub|] == sub;
    assert OccursAt(a + sub + b, sub, |a|);
  }

  /** Containment is transitive. */
  lemma ContainsTrans(s: string, mid: string, sub: string)
    requires Contains(s, mid) && Contains(mid, sub)
    ensures Contains(s, sub)
  {
    var i :| OccursAt(s, mid, i);
    var j :| OccursAt(mid, sub, j);
    forall k | 0 <= k < |sub|
      ensures s[i + j + k] == sub[k]
    {
      assert s[i..i + |mid|][j + k] == mid[j + k];
      assert mid[j..j + |sub|][k] == sub[k];
    }
    assert s[i + j..i + j + |sub|] == sub;
    assert OccursAt(s, sub, i + j);
  }

  /** `str.lower` on one character; only A-Z are folded. */
  function LowerChar(c: char): char {
    if 'A' <= c <= 'Z' then (c as int - 'A' as int + 'a' as int) as char else c
  }

  /** `str.lower` restricted to ASCII letters. */
  function Lower(s: string): (r: string)
    ensures |r| == |s|
    ensures forall i :: 0 <= i < |s| ==> r[i] == LowerChar(s[i])
  {
    seq(|s|, i requires 0 <= i < |s| => LowerChar(s[i]))
  }

  /** Lower-casing both sides keeps every case-sensitive occurrence. */
  lemma ContainsLower(s: string, sub: string)
    requires Contains(s, sub)
    ensures Contains(Lower(s), Lower(sub))
  {
    var i :| OccursAt(s, sub, i);
    assert Lower(s)[i..i + |sub|] == Lower(sub) by {
      forall k | 0 <= k < |sub|
        ensures Lower(s)[i..i + |sub|][k] == Lower(sub)[k]
      {
        assert s[i..i + |sub|][k] == sub[k];
      }
    }
    assert OccursAt(Lower(s), Lower(sub), i);
  }

  /** One line as `readlines` yields it: non-empty, with a newline at most
      as its last character. */
  predicate IsLine(l: string) {
    |l| > 0 && '\n' !in l[..|l| - 1]
  }

  predicate EndsWithNewline(s: string) {
    |s| > 0 && s[|s| - 1] == '\n'
  }

  /** A sequence `readlines` can produce: lines, all newline-terminated but
      possibly the last. */
  predicate WellFormedLines(ls: seq<string>) {
    && (forall k :: 0 <= k < |ls| ==> IsLine(ls[k]))
    && (forall k :: 0 <= k < |ls| - 1 ==> EndsWithNewline(ls[k]))
  }

  function Join(ls: seq<string>): (r: string)
  {
    if ls == [] then [] else ls[0] + Join(ls[1..])
  }

  /** `f` applied to every element, in order. */
  function Map<A, B>(xs: seq<A>, f: A -> B): (r: seq<B>)
    ensures |r| == |xs|
    ensures forall k :: 0 <= k < |xs| ==> r[k] == f(xs[k])
  {
    seq(|xs|, k requires 0 <= k < |xs| => f(xs[k]))
  }

  lemma MapSnoc<A, B>(xs: seq<A>, f: A -> B)
    requires xs != []
    ensures var n := |xs| - 1; Map(xs, f) == Map(xs[..n], f) + [f(xs[n])]
  {
    var n := |xs| - 1;
    var a := Map(xs, f);
    var b := Map(xs[..n], f) + [f(xs[n])];
    forall k | 0 <= k < |a|
      ensures a[k] == b[k]
    {
      if k < n {
        assert xs[..n][k] == xs[k];
      }
    }
  }

  lemma {:induction false} JoinAppend(a: seq<string>, b: seq<string>)
    ensures Join(a + b) == Join(a) + Join(b)
    decreases |a|
  {
    if a == [] {
      assert a + b == b;
    } else {
      assert (a + b)[1..] == a[1..] + b;
      JoinAppend(a[1..], b);
    }
  }

  lemma ConsLine(l: string, ls: seq<string>)
    requires IsLine(l) && EndsWithNewline(l) && WellFormedLines(ls)
    ensures WellFormedLines([l] + ls)
    ensures Join([l] + ls) == l + Join(ls)
  {
    assert ([l] + ls)[1..] == ls;
  }

  /** Python's `readlines` on a file's content: split after every newline,
      keeping the newline; a final line may lack one; no empty lines. */
  function SplitLines(s: string): (r: seq<string>)
    ensures WellFormedLines(r)
    ensures Join(r) == s
    decreases |s|
  {
    if s == [] then []
    else
      var k := Find(s, '\n');
      if k < 0 then
        assert Join([s]) == s + Join([]);
        [s]
      else
        var l := s[..k + 1];
        var rest := SplitLines(s[k + 1..]);
        assert l[..k] == s[..k];
        ConsLine(l, rest);
        assert l + s[k + 1..] == s;
        [l] + rest
  }

  /** A line made of `body` and a newline. */
  lemma NewlineEnded(body: string)
    requires '\n' !in body
    ensures IsLine(body + "\n") && EndsWithNewline(body + "\n")
  {
    assert (body + "\n")[..|body|] == body;
  }

  /** Text without a newline, followed by one, is read back as one line. */
  lemma OneLine(body: string)
    requires '\n' !in body
    ensures SplitLines(body + "\n") == [body + "\n"]
  {
    var l := body + "\n";
    NewlineEnded(body);
    assert [l][1..] == [];
    assert Join([l]) == l;
    SplitJoin([l]);
  }

  /** `readlines` recovers exactly the lines that were joined. */
  lemma {:induction false} SplitJoin(ls: seq<string>)
    requires WellFormedLines(ls)
    ensures SplitLines(Join(ls)) == ls
    decreases |ls|
  {
    if ls != [] {
      var l := ls[0];
      var s := Join(ls);
      assert s == l + Join(ls[1..]);
      assert WellFormedLines(ls[1..]);
      if |ls| == 1 {
        assert Join(ls[1..]) == [];
        assert s == l;
        if EndsWithNewline(l) {
          assert l[..|l| - 1] == s[..|l| - 1];
          assert Find(s, '\n') == |l| - 1;
          assert s[|l|..] == [];
        } else {
          assert forall j :: 0 <= j < |l| ==> l[j] != '\n' by {
            forall j | 0 <= j < |l|
              ensures l[j] != '\n'
            {
              if j < |l| - 1 {
                assert l[..|l| - 1][j] == l[j];
              }
            }
          }
          assert '\n' !in s;
        }
      } else {
        assert EndsWithNewline(l);
        assert s[..|l| - 1] == l[..|l| - 1];
        assert s[|l| - 1] == '\n';
        assert Find(s, '\n') == |l| - 1;
        assert s[..|l|] == l;
        assert s[|l|..] == Join(ls[1..]);
        SplitJoin(ls[1..]);
        assert ls == [l] + ls[1..];
      }
    }
  }

  lemma AppendLines(la: seq<string>, lb: seq<string>)
    requires WellFormedLines(la) && WellFormedLines(lb)
    requires la == [] || EndsWithNewline(la[|la| - 1])
    ensures WellFormedLines(la + lb)
  {
    forall k | 0 <= k < |la + lb| - 1
      ensures EndsWithNewline((la + lb)[k])
    {
      if k < |la| {
        assert (la + lb)[k] == la[k];
      } else {
        assert (la + lb)[k] == lb[k - |la|];
      }
    }
  }

  /** The last line `readlines` yields ends with the content's last character. */
  lemma LastLine(s: string)
    requires s != []
    ensures var ls := SplitLines(s);
      ls != [] && ls[|ls| - 1][|ls[|ls| - 1]| - 1] == s[|s| - 1]
  {
    var ls := SplitLines(s);
    var n := |ls| - 1;
    assert ls != [];
    JoinAppend(ls[..n], [ls[n]]);
    assert ls[..n] + [ls[n]] == ls;
    assert Join([ls[n]]) == ls[n] + Join([]);
  }

  /** Reading a file that already ends with a newline, then appending more,
      reads back as the old lines followed by the new ones. */
  lemma SplitAppend(a: string, b: string)
    requires a == [] || EndsWithNewline(a)
    ensures SplitLines(a + b) == SplitLines(a) + SplitLines(b)
  {
    var la := SplitLines(a);
    var lb := SplitLines(b);
    JoinAppend(la, lb);
    if a != [] {
      LastLine(a);
      var last := la[|la| - 1];
      assert IsLine(last);
      assert EndsWithNewline(last);
    } else {
      assert la == [];
    }
    AppendLines(la, lb);
    SplitJoin(la + lb);
  }
}
