/** The assignment of parts to workers: every part gets the first of its candidates that is free. */
module Assignments {
  import opened Options

  /** The first candidate that has no part yet. */
  function FirstFree(cands: seq<nat>, taken: seq<nat>): Option<nat> {
    if cands == [] then None
    else if cands[0] !in taken then Some(cands[0])
    else FirstFree(cands[1..], taken)
  }

  /** The worker of every part, cands being the eligible workers of each part; None if the source throws. */
  function Assign(cands: seq<seq<nat>>): Option<seq<nat>> {
    if cands == [] then Some([])
    else match Assign(cands[..|cands| - 1])
      case None => None
      case Some(p) =>
        match FirstFree(cands[|cands| - 1], p)
        case None => None
        case Some(w) => Some(p + [w])
  }

  ghost predicate Injective(f: seq<nat>) { forall i, j :: 0 <= i < j < |f| ==> f[i] != f[j] }

  /** Every part has an eligible worker of its own. */
  ghost predicate Assigns(cands: seq<seq<nat>>, f: seq<nat>) {
    |f| == |cands| && Injective(f) && forall i :: 0 <= i < |f| ==> f[i] in cands[i]
  }

  lemma {:induction false} FirstFreeIs(cands: seq<nat>, taken: seq<nat>)
    ensures match FirstFree(cands, taken)
      case None => forall w :: w in cands ==> w in taken
      case Some(w) => w in cands && w !in taken
  {
    if cands != [] && cands[0] in taken {
      FirstFreeIs(cands[1..], taken);
      assert cands == [cands[0]] + cands[1..];
    }
  }

  lemma AssignOne(c: seq<nat>, w: nat)
    requires c != [] && c[0] == w
    ensures Assign([c]) == Some([w])
  {
    assert [c][..0] == [] && [] + [w] == [w];
  }

  lemma {:induction false} FirstFreeBefore(cands: seq<nat>, taken: seq<nat>) returns (k: nat)
    requires FirstFree(cands, taken).Some?
    ensures k < |cands| && cands[k] == FirstFree(cands, taken).value && cands[k] !in taken
    ensures forall j :: 0 <= j < k ==> cands[j] in taken
  {
    k := 0;
    if cands[0] in taken {
      k := FirstFreeBefore(cands[1..], taken);
      k := k + 1;
    }
  }

  lemma {:induction false} AssignSound(cands: seq<seq<nat>>)
    requires Assign(cands).Some?
    ensures Assigns(cands, Assign(cands).value)
  {
    if cands != [] {
      var front := cands[..|cands| - 1];
      AssignSound(front);
      FirstFreeIs(cands[|cands| - 1], Assign(front).value);
    }
  }

  /** The source throws exactly when, at some part, every eligible worker already holds a part. */
  lemma {:induction false} AssignThrowsIff(cands: seq<seq<nat>>)
    ensures Assign(cands).None? <==> exists i :: 0 <= i < |cands| && StuckAt(cands, i)
  {
    if cands != [] {
      var n := |cands| - 1;
      AssignThrowsIff(cands[..n]);
      assert forall i :: 0 <= i < n ==> cands[..n][..i] == cands[..i];
      if Assign(cands[..n]).Some? {
        FirstFreeIs(cands[n], Assign(cands[..n]).value);
        assert StuckAt(cands, n) <==> FirstFree(cands[n], Assign(cands[..n]).value).None?;
        assert forall i :: 0 <= i < n ==> StuckAt(cands, i) == StuckAt(cands[..n], i);
      } else {
        var i :| 0 <= i < n && StuckAt(cands[..n], i);
        assert StuckAt(cands, i);
      }
    }
  }

  predicate StuckAt(cands: seq<seq<nat>>, i: nat)
    requires i < |cands|
  {
    Assign(cands[..i]).Some? && forall w :: w in cands[i] ==> w in Assign(cands[..i]).value
  }

  /** With as many workers as parts the assignment is a bijection. */
  lemma AssignBijective(cands: seq<seq<nat>>, n: nat)
    requires Assign(cands).Some? && |cands| == n && forall i, w :: 0 <= i < n && w in cands[i] ==> w < n
    ensures forall w: nat :: w < n ==> w in Assign(cands).value
  {
    AssignSound(cands);
    var f := Assign(cands).value;
    ImageSize(f, n);
    var image := set i | 0 <= i < n :: f[i];
    SubsetAll(image, Upto(n));
    forall w: nat | w < n ensures w in f {
      assert w in image;
    }
  }

  ghost function Upto(n: nat): (r: set<nat>)
    ensures |r| == n && forall w: nat :: w in r <==> w < n
  {
    if n == 0 then {} else Upto(n - 1) + {n - 1}
  }

  lemma {:induction false} ImageSize(f: seq<nat>, n: nat)
    requires Injective(f) && n <= |f|
    ensures |set i | 0 <= i < n :: f[i]| == n
  {
    if n > 0 {
      ImageSize(f, n - 1);
      assert (set i | 0 <= i < n :: f[i]) == (set i | 0 <= i < n - 1 :: f[i]) + {f[n - 1]};
    }
  }

  lemma {:induction false} SubsetSize(a: set<nat>, b: set<nat>)
    requires a <= b
    ensures |a| <= |b|
  {
    if a != {} {
      var x :| x in a;
      SubsetSize(a - {x}, b - {x});
    }
  }

  lemma SubsetAll(a: set<nat>, b: set<nat>)
    requires a <= b && |a| == |b|
    ensures a == b
  {
    if x :| x in b && x !in a { SubsetSize(a, b - {x}); }
  }

  ghost function Image(dom: set<nat>, f: seq<nat>): set<nat> { set i | i in dom && i < |f| :: f[i] }

  lemma {:induction false} ImageBound(dom: set<nat>, f: seq<nat>)
    ensures |Image(dom, f)| <= |dom|
  {
    if dom != {} {
      var i :| i in dom;
      ImageBound(dom - {i}, f);
      assert Image(dom, f) == Image(dom - {i}, f) + if i < |f| then {f[i]} else {};
    }
  }

  lemma {:induction false} ImageExact(dom: set<nat>, f: seq<nat>)
    requires Injective(f) && forall i :: i in dom ==> i < |f|
    ensures |Image(dom, f)| == |dom|
  {
    if dom != {} {
      var i :| i in dom;
      ImageExact(dom - {i}, f);
      assert Image(dom, f) == Image(dom - {i}, f) + {f[i]};
    }
  }

  // ---------------------------------------------------------------- when the first free worker is good enough

  ghost function Members(s: seq<nat>): set<nat> { set w | w in s }

  /** The workers of list a that are not in list b come before those that are. */
  ghost predicate OwnFirst(a: seq<nat>, b: seq<nat>) {
    forall i, v :: 0 <= i < |a| && a[i] in b && v in a && v !in b ==> v in a[..i]
  }

  ghost predicate AllOwnFirst(cands: seq<seq<nat>>) {
    forall i, j :: 0 <= i < |cands| && 0 <= j < |cands| ==> OwnFirst(cands[i], cands[j])
  }

  /** When a part got its worker, all those before it in the list held a part already. */
  lemma {:induction false} EarlierTaken(cands: seq<seq<nat>>, i: nat) returns (k: nat)
    requires Assign(cands).Some? && i < |cands|
    ensures |Assign(cands).value| == |cands|
    ensures k < |cands[i]| && cands[i][k] == Assign(cands).value[i]
    ensures forall j :: 0 <= j < k ==> cands[i][j] in Assign(cands).value[..i]
  {
    var n := |cands| - 1;
    AssignSound(cands);
    AssignSound(cands[..n]);
    var p := Assign(cands[..n]).value;
    if i < n {
      k := EarlierTaken(cands[..n], i);
      assert Assign(cands).value[..i] == p[..i];
    } else {
      k := FirstFreeBefore(cands[n], p);
      assert Assign(cands).value[..n] == p;
    }
  }

  /** All candidates of the part are taken by p. */
  ghost predicate Exhausted(c: seq<nat>, p: seq<nat>) { forall w :: w in c ==> w in p }

  /** If a part holds a candidate of an exhausted part, its own candidates are exhausted as well. */
  lemma ExhaustedSpreads(cands: seq<seq<nat>>, p: seq<nat>, i: nat, b: seq<nat>)
    requires Assign(cands) == Some(p) && i < |cands| && i < |p|
    requires OwnFirst(cands[i], b) && Exhausted(b, p) && p[i] in b
    ensures Exhausted(cands[i], p)
  {
    var k := EarlierTaken(cands, i);
    forall v | v in cands[i] ensures v in p {
      if v !in b {
        assert v in cands[i][..k];
        var j :| 0 <= j < k && cands[i][j] == v;
        assert v in p[..i];
      }
    }
  }

  /** The parts whose candidates are exhausted are too many for these candidates if one of them got none. */
  lemma NeverExhausted(cands: seq<seq<nat>>, f: seq<nat>, p: seq<nat>)
    requires cands != [] && AllOwnFirst(cands) && Assigns(cands, f)
    requires Assign(cands[..|cands| - 1]) == Some(p)
    ensures !Exhausted(cands[|cands| - 1], p)
  {
    var n := |cands| - 1;
    AssignSound(cands[..n]);
    if Exhausted(cands[n], p) {
      var parts := set i: nat | 0 <= i <= n && Exhausted(cands[i], p);
      var wanted, held := Image(parts, f), Image(parts - {n}, p);
      assert n in parts;
      forall w | w in wanted ensures w in held {
        var i :| i in parts && f[i] == w;
        assert f[i] in cands[i];
        var j :| 0 <= j < |p| && p[j] == w;
        ExhaustedSpreads(cands[..n], p, j, cands[i]);
        assert j in parts - {n};
      }
      assert |parts - {n}| == |parts| - 1;
      ImageExact(parts, f);
      ImageBound(parts - {n}, p);
      SubsetSize(wanted, held);
    }
  }

  lemma {:induction false} AssignFinds(cands: seq<seq<nat>>, f: seq<nat>)
    requires AllOwnFirst(cands) && Assigns(cands, f)
    ensures Assign(cands).Some?
  {
    if cands != [] {
      var n := |cands| - 1;
      AssignFinds(cands[..n], f[..n]);
      var p := Assign(cands[..n]).value;
      NeverExhausted(cands, f, p);
      FirstFreeIs(cands[n], p);
    }
  }

  /** If no part has a worker it shares with another one before a worker of its own, the first free worker
      is good enough: there is an assignment if and only if this one is found. */
  lemma AssignComplete(cands: seq<seq<nat>>)
    requires AllOwnFirst(cands)
    ensures Assign(cands).Some? <==> exists f :: Assigns(cands, f)
  {
    if Assign(cands).Some? { AssignSound(cands); }
    if f :| Assigns(cands, f) { AssignFinds(cands, f); }
  }

  // ---------------------------------------------------------------- when it is not

  lemma {:induction false} MembersSize(q: seq<nat>)
    ensures |Members(q)| <= |q| && (Injective(q) ==> |Members(q)| == |q|)
  {
    if q != [] {
      var n := |q| - 1;
      MembersSize(q[..n]);
      assert Members(q) == Members(q[..n]) + {q[n]};
      if Injective(q) { assert q[n] !in Members(q[..n]); }
    }
  }

  lemma {:induction false} Listing(s: set<nat>) returns (q: seq<nat>)
    ensures Injective(q) && |q| == |s| && forall w :: w in q <==> w in s
  {
    q := [];
    if s != {} {
      var w :| w in s;
      q := Listing(s - {w});
      q := q + [w];
    }
  }

  ghost function Copies(c: seq<nat>, n: nat): seq<seq<nat>> { seq(n, _ => c) }

  /** As many parts with list a as its first i + 1 candidates take just these. */
  lemma CopiesTake(cands: seq<seq<nat>>, a: seq<nat>, i: nat, d: nat)
    requires Assign(cands).Some? && d <= |cands| && (forall j :: 0 <= j < d ==> cands[j] == a)
    requires i < |a| && |Members(a[..i + 1])| == d
    ensures |Assign(cands).value| == |cands| && Members(Assign(cands).value[..d]) == Members(a[..i + 1])
  {
    AssignSound(cands);
    var p, first := Assign(cands).value, Members(a[..i + 1]);
    forall w | w in Members(p[..d]) ensures w in first {
      var j :| 0 <= j < d && p[j] == w;
      var k := EarlierTaken(cands, j);
      if k > i {
        assert first <= Members(p[..j]);
        SubsetSize(first, Members(p[..j]));
        MembersSize(p[..j]);
      }
      assert a[..i + 1][k] == w;
    }
    MembersSize(p[..d]);
    SubsetAll(Members(p[..d]), first);
  }

  /** The parts that show it: so many with list a that they take the shared worker a[i] as well, and so
      many with list b that they need it. */
  ghost function Crowd(a: seq<nat>, b: seq<nat>, i: nat): seq<seq<nat>>
    requires i < |a|
  {
    Copies(a, |Members(a[..i])| + 1) + Copies(b, |Members(b) - Members(a[..i])|)
  }

  lemma CrowdFits(a: seq<nat>, b: seq<nat>, i: nat, v: nat) returns (f: seq<nat>)
    requires i < |a| && v in a && v !in b && v !in a[..i]
    ensures Assigns(Crowd(a, b, i), f)
  {
    var before, own := Members(a[..i]), Members(b) - Members(a[..i]);
    var q := Listing(before);
    var r := Listing(own);
    f := q + [v] + r;
    forall j, k | 0 <= j < k < |f| ensures f[j] != f[k] {
      if j < |q| {
        assert f[j] in before;
        if k > |q| { assert f[k] in own; }
      } else {
        assert f[k] in own;
        if j > |q| { assert f[j] == r[j - |q| - 1] && f[k] == r[k - |q| - 1]; }
      }
    }
    forall k | 0 <= k < |f| ensures f[k] in Crowd(a, b, i)[k] {
      if k < |q| {
        assert f[k] == q[k] && f[k] in before;
      } else if k > |q| {
        assert f[k] in own;
      }
    }
  }

  /** The parts from d on share what is left of list b. */
  lemma LeftOver(cands: seq<seq<nat>>, p: seq<nat>, d: nat, b: seq<nat>)
    requires Assigns(cands, p) && d <= |cands| && forall k :: d <= k < |cands| ==> cands[k] == b
    ensures |cands| - d <= |Members(b) - Members(p[..d])|
  {
    var left := Members(b) - Members(p[..d]);
    forall w | w in Members(p[d..]) ensures w in left {
      var k :| 0 <= k < |p[d..]| && p[d..][k] == w;
      assert p[d + k] in cands[d + k];
    }
    MembersSize(p[d..]);
    SubsetSize(Members(p[d..]), left);
  }

  lemma CrowdThrows(a: seq<nat>, b: seq<nat>, i: nat)
    requires i < |a| && a[i] in b && a[i] !in a[..i]
    ensures Assign(Crowd(a, b, i)).None?
  {
    var cands, before, own := Crowd(a, b, i), Members(a[..i]), Members(b) - Members(a[..i]);
    var d := |before| + 1;
    assert Members(a[..i + 1]) == before + {a[i]};
    assert Members(b) - Members(a[..i + 1]) == own - {a[i]};
    assert a[i] in own && |own - {a[i]}| == |own| - 1;
    hide Assign, Injective;
    if Assign(cands).Some? {
      AssignSound(cands);
      CopiesTake(cands, a, i, d);
      LeftOver(cands, Assign(cands).value, d, b);
    }
  }

  lemma {:induction false} FirstOccurrence(a: seq<nat>, i: nat) returns (k: nat)
    requires i < |a|
    ensures k <= i && a[k] == a[i] && a[k] !in a[..k]
  {
    k := i;
    if a[i] in a[..i] {
      var j :| 0 <= j < i && a[j] == a[i];
      k := FirstOccurrence(a, j);
    }
  }

  /** Every part's candidates are one of the lists. */
  ghost predicate Over(cands: seq<seq<nat>>, lists: set<seq<nat>>) {
    forall i :: 0 <= i < |cands| ==> cands[i] in lists
  }

  /** Taking the first free worker finds an assignment of all parts whenever there is one. */
  ghost predicate GoodEnough(lists: set<seq<nat>>) {
    forall cands, f :: Over(cands, lists) && Assigns(cands, f) ==> Assign(cands).Some?
  }

  /** The lists for which the first free worker is good enough, whatever parts there are: exactly those in
      which no shared worker comes before one of the list's own. */
  lemma GoodEnoughIff(lists: set<seq<nat>>)
    ensures GoodEnough(lists) <==> forall a, b :: a in lists && b in lists ==> OwnFirst(a, b)
  {
    if GoodEnough(lists) {
      forall a, b | a in lists && b in lists ensures OwnFirst(a, b) {
        if i, v :| 0 <= i < |a| && a[i] in b && v in a && v !in b && v !in a[..i] {
          var k := FirstOccurrence(a, i);
          assert a[..i][..k] == a[..k] && v !in a[..k];
          var f := CrowdFits(a, b, k, v);
          CrowdThrows(a, b, k);
          assert Over(Crowd(a, b, k), lists);
        }
      }
    } else {
      var cands, f :| Over(cands, lists) && Assigns(cands, f) && Assign(cands).None?;
      if AllOwnFirst(cands) { AssignFinds(cands, f); }
    }
  }
}
