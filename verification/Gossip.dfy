/** Gossip in the abstract: clusters read each other's statuses in pairs, and only some clusters tell
    theirs. Which schedules can be kept from bringing the statuses into line? */
module Gossip {
  import opened Objects

  /** The status each cluster has. */
  type Board = map<ClusterId, string>

  /** A read (l, c): l takes over c's status, if c tells. */
  type Pair = (ClusterId, ClusterId)

  predicate IsRead(b: Board, r: Pair) {
    r.0 in b && r.1 in b && r.0 != r.1
  }

  predicate AreReads(b: Board, rs: seq<Pair>) {
    forall r | r in rs :: IsRead(b, r)
  }

  function Told(b: Board, tellers: set<ClusterId>, r: Pair): Board
    requires IsRead(b, r)
  {
    if r.1 in tellers then b[r.0 := b[r.1]] else b
  }

  function ToldAll(b: Board, tellers: set<ClusterId>, rs: seq<Pair>): (b': Board)
    requires AreReads(b, rs)
    ensures b'.Keys == b.Keys
    decreases |rs|
  {
    if rs == [] then b else Told(ToldAll(b, tellers, rs[..|rs| - 1]), tellers, rs[|rs| - 1])
  }

  lemma {:induction false} ToldConcat(b: Board, tellers: set<ClusterId>, rs: seq<Pair>, rs': seq<Pair>)
    requires AreReads(b, rs) && AreReads(b, rs')
    ensures AreReads(b, rs + rs') && ToldAll(b, tellers, rs + rs') == ToldAll(ToldAll(b, tellers, rs), tellers, rs')
    decreases |rs'|
  {
    if rs' == [] {
      assert rs + rs' == rs;
    } else {
      ToldConcat(b, tellers, rs, rs'[..|rs'| - 1]);
      assert (rs + rs')[..|rs + rs'| - 1] == rs + rs'[..|rs'| - 1];
    }
  }

  lemma ToldOne(b: Board, tellers: set<ClusterId>, r: Pair)
    requires IsRead(b, r)
    ensures AreReads(b, [r]) && ToldAll(b, tellers, [r]) == Told(b, tellers, r)
  {
    assert [r][..0] == [];
  }

  lemma {:induction false} BoardsTold(bs: seq<Board>, tellers: set<ClusterId>, rs: seq<Pair>)
    requires |bs| == |rs| + 1 && AreReads(bs[0], rs)
    requires forall i | 0 <= i < |rs| && IsRead(bs[i], rs[i]) :: bs[i + 1] == Told(bs[i], tellers, rs[i])
    ensures bs[|rs|] == ToldAll(bs[0], tellers, rs)
    decreases |rs|
  {
    if rs != [] {
      BoardsTold(bs[..|rs|], tellers, rs[..|rs| - 1]);
      assert IsRead(bs[0], rs[|rs| - 1]);
    }
  }

  /** Every cluster has the status that every other one tells. */
  predicate Level(b: Board, tellers: set<ClusterId>) {
    forall l, c | l in b && c in b && c in tellers && l != c :: b[l] == b[c]
  }

  /** The tellers tell the same. */
  predicate Uniform(b: Board, tellers: set<ClusterId>)
    requires tellers <= b.Keys
  {
    forall x, y | x in tellers && y in tellers :: b[x] == b[y]
  }

  /******* Three tellers or more *******/

  /** If three clusters tell and do not tell the same, any read can be scheduled so that this stays
      so: if the read alone would make them agree, a third teller first saves the old status. */
  lemma KeepApart(b: Board, tellers: set<ClusterId>, r: Pair) returns (rs: seq<Pair>)
    requires tellers <= b.Keys && |tellers| > 2 && !Uniform(b, tellers) && IsRead(b, r)
    ensures AreReads(b, rs) && r in rs && !Uniform(ToldAll(b, tellers, rs), tellers)
  {
    ToldOne(b, tellers, r);
    rs := [r];
    if Uniform(Told(b, tellers, r), tellers) {
      var d := Third(tellers, r.0, r.1);
      OldDiffers(b, tellers, r);
      var saved := Told(b, tellers, (d, r.0));
      ToldOne(b, tellers, (d, r.0));
      ToldOne(saved, tellers, r);
      ToldConcat(b, tellers, [(d, r.0)], [r]);
      rs := [(d, r.0)] + [r];
      assert ToldAll(b, tellers, rs)[d] != ToldAll(b, tellers, rs)[r.1];
    }
  }

  lemma OldDiffers(b: Board, tellers: set<ClusterId>, r: Pair)
    requires tellers <= b.Keys && !Uniform(b, tellers) && IsRead(b, r) && Uniform(Told(b, tellers, r), tellers)
    ensures r.0 in tellers && r.1 in tellers && b[r.0] != b[r.1]
  {
    var x, y :| x in tellers && y in tellers && b[x] != b[y];
    assert Told(b, tellers, r)[x] == Told(b, tellers, r)[y];
  }

  lemma Third<T>(s: set<T>, a: T, b: T) returns (d: T)
    requires |s| > 2
    ensures d in s && d != a && d != b
  {
    if s - {a, b} == {} {
      assert s <= {a, b};
      SubsetSize(s, {a, b});
    }
    d :| d in s - {a, b};
  }

  lemma {:induction false} FairApart(b: Board, tellers: set<ClusterId>, todo: set<Pair>) returns (rs: seq<Pair>)
    requires tellers <= b.Keys && |tellers| > 2 && !Uniform(b, tellers) && forall r | r in todo :: IsRead(b, r)
    ensures AreReads(b, rs) && (forall r | r in todo :: r in rs) && !Uniform(ToldAll(b, tellers, rs), tellers)
    decreases todo
  {
    rs := [];
    if todo != {} {
      var r :| r in todo;
      var first := KeepApart(b, tellers, r);
      var rest := FairApart(ToldAll(b, tellers, first), tellers, todo - {r});
      ToldConcat(b, tellers, first, rest);
      rs := first + rest;
      assert forall x | x in todo :: x == r || x in todo - {r};
    }
  }

  lemma ApartIsNotLevel(b: Board, tellers: set<ClusterId>)
    requires tellers <= b.Keys && |tellers| > 2 && !Uniform(b, tellers)
    ensures !Level(b, tellers)
  {
    var x, y :| x in tellers && y in tellers && b[x] != b[y];
    var z := Third(tellers, x, y);
    assert b[z] != b[x] || b[z] != b[y];
  }

  /******* Two tellers *******/

  /** Reads that do not go from one of the two tellers to the other leave both as they are. */
  lemma {:induction false} AnyOrder(b: Board, x: ClusterId, y: ClusterId, todo: set<Pair>) returns (rs: seq<Pair>)
    requires x in b && y in b && forall r | r in todo :: IsRead(b, r) && r != (x, y) && r != (y, x)
    ensures AreReads(b, rs) && (forall r | r in todo :: r in rs)
    ensures var b' := ToldAll(b, {x, y}, rs); b'[x] == b[x] && b'[y] == b[y]
    decreases todo
  {
    rs := [];
    if todo != {} {
      var r :| r in todo;
      ToldOne(b, {x, y}, r);
      var rest := AnyOrder(Told(b, {x, y}, r), x, y, todo - {r});
      ToldConcat(b, {x, y}, [r], rest);
      rs := [r] + rest;
      assert forall p | p in todo :: p == r || p in todo - {r};
    }
  }

  /** l reads from y last; then the two tellers settle on x's status, and l is left behind. */
  lemma LeftBehind(b: Board, x: ClusterId, y: ClusterId, l: ClusterId)
    requires x in b && y in b && l in b && x != y && l != x && l != y && b[x] != b[y]
    ensures AreReads(b, [(l, y), (y, x), (x, y)]) && !Level(ToldAll(b, {x, y}, [(l, y), (y, x), (x, y)]), {x, y})
  {
    var g, rs := {x, y}, [(l, y), (y, x), (x, y)];
    var b1 := Told(b, g, (l, y));
    var b2 := Told(b1, g, (y, x));
    assert rs[..2] == [(l, y), (y, x)] && rs[..2][..1] == [(l, y)] && rs[..1][..0] == [];
    assert ToldAll(b, g, rs[..1]) == b1;
    assert ToldAll(b, g, rs[..2]) == b2;
    var b3 := ToldAll(b, g, rs);
    assert b3 == Told(b2, g, (x, y)) && b3[l] == b[y] && b3[x] == b[x];
  }

  /******* Whenever some cluster is told two different statuses *******/

  lemma Unsettled(b: Board, tellers: set<ClusterId>, l: ClusterId, x: ClusterId, y: ClusterId, todo: set<Pair>)
    returns (rs: seq<Pair>)
    requires tellers <= b.Keys && l in b && {x, y} <= tellers - {l} && b[x] != b[y]
    requires forall r | r in todo :: IsRead(b, r)
    ensures AreReads(b, rs) && (forall r | r in todo :: r in rs) && !Level(ToldAll(b, tellers, rs), tellers)
  {
    if |tellers| > 2 {
      rs := FairApart(b, tellers, todo);
      ApartIsNotLevel(ToldAll(b, tellers, rs), tellers);
    } else {
      OnlyTwo(tellers, x, y);
      var first := AnyOrder(b, x, y, todo - {(x, y), (y, x)});
      var last := [(l, y), (y, x), (x, y)];
      LeftBehind(ToldAll(b, tellers, first), x, y, l);
      ToldConcat(b, tellers, first, last);
      rs := first + last;
      assert last[1] == (y, x) && last[2] == (x, y);
    }
  }

  lemma OnlyTwo<T>(s: set<T>, a: T, b: T)
    requires |s| <= 2 && a in s && b in s && a != b
    ensures s == {a, b}
  {
    assert |s - {a, b}| == 0;
  }
}
