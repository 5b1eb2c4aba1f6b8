/** The compiler's stack of local variables (compiler.c:45-56, 224-239,
    358-414, 552-555) described on values: which slot a name resolves to,
    which locals a declaration is checked against, which locals survive the
    end of a scope, and the shape the stack keeps between statements. */
module Scopes {
  import opened Tokens
  import Values

  /** UINT8_COUNT: the size of the locals array. */
  const LocalsMax := 256

  /** The depth of a local whose initializer is still being compiled. */
  const Uninitialized := -1

  datatype Local = Local(name: Token, depth: int)

  /** identifiersEqual: same length, then the same characters. */
  function IdentifiersEqual(a: Token, b: Token): (r: bool)
    ensures r <==> a.lexeme == b.lexeme
  {
    |a.lexeme| == |b.lexeme| && Values.SameBytes(a.lexeme, b.lexeme, |a.lexeme|)
  }

  /** The slot resolveLocal finds for `name`: the highest one whose name
      matches, or -1, so the innermost declaration shadows the others. */
  function LastMatch(ls: seq<Local>, name: Token): (slot: int)
    ensures -1 <= slot < |ls|
    ensures 0 <= slot ==> IdentifiersEqual(name, ls[slot].name)
    ensures forall j :: slot < j < |ls| ==> !IdentifiersEqual(name, ls[j].name)
  {
    if |ls| == 0 then -1
    else if IdentifiersEqual(name, ls[|ls| - 1].name) then |ls| - 1
    else LastMatch(ls[..|ls| - 1], name)
  }

  /** A local of an enclosing scope: initialized, and shallower than `depth`.
      The duplicate check of declareVariable stops at the first one. */
  predicate Outer(l: Local, depth: int)
  {
    l.depth != Uninitialized && l.depth < depth
  }

  /** Where the duplicate check of declareVariable stops: it scans the
      locals from the top down to, and not including, the first local of an
      enclosing scope. */
  function ScopeStart(ls: seq<Local>, depth: int): (s: nat)
    ensures s <= |ls|
    ensures forall j :: s <= j < |ls| ==> !Outer(ls[j], depth)
    ensures 0 < s ==> Outer(ls[s - 1], depth)
  {
    if |ls| == 0 then 0
    else if Outer(ls[|ls| - 1], depth) then |ls|
    else ScopeStart(ls[..|ls| - 1], depth)
  }

  /** ScopeStart is the one position with the properties it promises. */
  lemma ScopeStartUnique(ls: seq<Local>, depth: int, s: nat)
    requires s <= |ls|
    requires forall j :: s <= j < |ls| ==> !Outer(ls[j], depth)
    requires 0 < s ==> Outer(ls[s - 1], depth)
    ensures ScopeStart(ls, depth) == s
  {
    var t := ScopeStart(ls, depth);
    if t < s {
      assert false;
    } else if s < t {
      assert false;
    }
  }

  /** How many of the locals from position `from` on carry the name `name`. */
  function Duplicates(ls: seq<Local>, from: nat, name: Token): (n: nat)
    decreases |ls| - from
    ensures from <= |ls| ==> n <= |ls| - from
    ensures n == 0 <==> forall j :: from <= j < |ls| ==> !IdentifiersEqual(name, ls[j].name)
  {
    if |ls| <= from then 0
    else (if IdentifiersEqual(name, ls[from].name) then 1 else 0) + Duplicates(ls, from + 1, name)
  }

  /** How many locals endScope keeps when it closes a scope and returns to
      `depth`: it pops from the top as long as the top local is deeper. */
  function Surviving(ls: seq<Local>, depth: int): (k: nat)
    ensures k <= |ls|
    ensures forall j :: k <= j < |ls| ==> ls[j].depth > depth
    ensures 0 < k ==> ls[k - 1].depth <= depth
  {
    if |ls| == 0 || ls[|ls| - 1].depth <= depth then |ls|
    else Surviving(ls[..|ls| - 1], depth)
  }

  /** Surviving is the one count with the properties it promises. */
  lemma SurvivingUnique(ls: seq<Local>, depth: int, k: nat)
    requires k <= |ls|
    requires forall j :: k <= j < |ls| ==> ls[j].depth > depth
    requires 0 < k ==> ls[k - 1].depth <= depth
    ensures Surviving(ls, depth) == k
  {
    var s := Surviving(ls, depth);
    if s < k {
      assert false;
    } else if k < s {
      assert false;
    }
  }

  /** The shape of the locals between two statements compiled at `depth`:
      every local is initialized, belongs to a scope from 1 to `depth`, and
      the locals are stacked by depth. */
  ghost predicate Ordered(ls: seq<Local>, depth: int)
  {
    (forall i :: 0 <= i < |ls| ==> 1 <= ls[i].depth <= depth) &&
    (forall i, j :: 0 <= i < j < |ls| ==> ls[i].depth <= ls[j].depth)
  }

  /** Locals are in use only inside a local scope; in particular none is
      at the top level. */
  lemma LocalsNeedScope(ls: seq<Local>, depth: int)
    requires Ordered(ls, depth)
    ensures |ls| > 0 ==> 1 <= depth
  {
    if |ls| > 0 {
      assert 1 <= ls[0].depth <= depth;
    }
  }

  /** What compiling statements at `depth` may do to the locals array:
      `before` with `e` locals in use becomes `after` with `n` in use; the
      locals below the entry count stay as they were and every later one
      belongs to scope `depth`, which is then a local scope (at depth 0 a
      declaration makes a global, not a local). When all 256 slots were in use on entry, a
      declaration cannot add a local and instead marks the top one as
      belonging to `depth` (markInitialized after a failed addLocal), so the
      top slot may change too. */
  ghost predicate Kept(before: seq<Local>, e: nat, after: seq<Local>, n: nat, depth: int)
  {
    |before| == LocalsMax && |after| == LocalsMax && e <= LocalsMax && n <= LocalsMax &&
    Frozen(e) <= n && before[..Frozen(e)] == after[..Frozen(e)] &&
    forall i :: Frozen(e) <= i < n ==> KeptSlot(before, e, after, depth, i)
  }

  /** Slot `i` either belongs to scope `depth` or still holds what it held. */
  ghost predicate KeptSlot(before: seq<Local>, e: nat, after: seq<Local>, depth: int, i: nat)
    requires i < |after| && (i < e ==> i < |before|)
  {
    (1 <= depth && after[i].depth == depth) || (i < e && after[i] == before[i])
  }

  /** The slots of the locals array that no statement may overwrite. */
  function Frozen(e: nat): nat
  {
    if e < LocalsMax then e else LocalsMax - 1
  }

  /** The duplicate check of declareVariable sees exactly the locals
      declared in the current scope. */
  lemma {:induction false} ScopeStartIsCurrentScope(ls: seq<Local>, depth: int)
    requires Ordered(ls, depth)
    ensures forall i :: 0 <= i < |ls| ==> (ScopeStart(ls, depth) <= i <==> ls[i].depth == depth)
  {
    var s := ScopeStart(ls, depth);
    forall i | 0 <= i < |ls|
      ensures s <= i <==> ls[i].depth == depth
    {
      if i < s {
        assert Outer(ls[s - 1], depth);
        assert ls[i].depth <= ls[s - 1].depth;
      } else {
        assert !Outer(ls[i], depth);
      }
    }
  }

  /** When endScope closes a scope opened on a well-ordered stack, it keeps
      exactly the locals of the enclosing scopes. */
  lemma {:induction false} SurvivingIsEnclosingScope(ls: seq<Local>, depth: int)
    requires Ordered(ls, depth + 1)
    ensures forall i :: 0 <= i < |ls| ==> (i < Surviving(ls, depth) <==> ls[i].depth <= depth)
    ensures Ordered(ls[..Surviving(ls, depth)], depth)
  {
    var k := Surviving(ls, depth);
    forall i | 0 <= i < |ls|
      ensures i < k <==> ls[i].depth <= depth
    {
      if i < k {
        assert ls[i].depth <= ls[k - 1].depth;
      }
    }
  }

  /** Compiling nothing keeps the locals. */
  lemma KeptNothing(ls: seq<Local>, e: nat, depth: int)
    requires |ls| == LocalsMax && e <= LocalsMax
    ensures Kept(ls, e, ls, e, depth)
  {
  }

  /** Statements compiled one after the other at one depth keep the locals. */
  lemma {:induction false} KeptTrans(a: seq<Local>, e: nat, b: seq<Local>, m: nat, c: seq<Local>, n: nat, depth: int)
    requires Kept(a, e, b, m, depth) && Kept(b, m, c, n, depth)
    ensures Kept(a, e, c, n, depth)
  {
    assert Frozen(e) <= Frozen(m);
    assert a[..Frozen(e)] == c[..Frozen(e)] by {
      assert a[..Frozen(e)] == b[..Frozen(m)][..Frozen(e)];
      assert c[..Frozen(e)] == c[..Frozen(m)][..Frozen(e)];
    }
    forall i | Frozen(e) <= i < n
      ensures KeptSlot(a, e, c, depth, i)
    {
      KeptTransAt(a, e, b, m, c, n, depth, i);
    }
  }

  lemma KeptTransAt(a: seq<Local>, e: nat, b: seq<Local>, m: nat, c: seq<Local>, n: nat, depth: int, i: int)
    requires Kept(a, e, b, m, depth) && Kept(b, m, c, n, depth) && Frozen(e) <= i < n
    ensures (1 <= depth && c[i].depth == depth) || (i < e && c[i] == a[i])
  {
    if i < Frozen(m) {
      assert c[i] == c[..Frozen(m)][i] == b[..Frozen(m)][i] == b[i];
      KeptAt(a, e, b, m, depth, i);
    } else {
      KeptAt(b, m, c, n, depth, i);
      if i < m {
        KeptAt(a, e, b, m, depth, i);
      }
    }
  }

  lemma KeptAt(before: seq<Local>, e: nat, after: seq<Local>, n: nat, depth: int, i: int)
    requires Kept(before, e, after, n, depth) && Frozen(e) <= i < n
    ensures (1 <= depth && after[i].depth == depth) || (i < e && after[i] == before[i])
  {
    assert KeptSlot(before, e, after, depth, i);
  }

  /** Statements that keep the locals keep them well ordered. */
  lemma {:induction false} KeptOrdered(before: seq<Local>, e: nat, after: seq<Local>, n: nat, depth: int)
    requires Kept(before, e, after, n, depth) && Ordered(before[..e], depth)
    ensures Ordered(after[..n], depth)
  {
    var f := Frozen(e);
    forall i | 0 <= i < n
      ensures 1 <= after[i].depth <= depth
    {
      if i < f {
        assert after[i] == after[..f][i] == before[..f][i] == before[..e][i];
      } else {
        KeptAt(before, e, after, n, depth, i);
        if after[i].depth != depth {
          assert after[i] == before[..e][i];
        }
      }
    }
    forall i, j | 0 <= i < j < n
      ensures after[i].depth <= after[j].depth
    {
      if j < f {
        assert after[i] == before[..e][i] && after[j] == before[..e][j];
      } else if i < f {
        assert after[i] == before[..e][i];
        KeptAt(before, e, after, n, depth, j);
        if after[j].depth != depth {
          assert after[j] == before[..e][j];
        }
      } else {
        assert e <= i < j;
        KeptAt(before, e, after, n, depth, j);
      }
    }
  }

  /** endScope after a block that kept the locals of the scope it opened:
      the survivors are exactly the locals the enclosing scope had (all of
      them, or all but the top one that a full stack handed to the inner
      scope), so the whole compound statement keeps the locals at the
      enclosing depth. */
  lemma {:induction false} ScopeClosed(before: seq<Local>, e: nat, after: seq<Local>, n: nat, depth: int)
    requires 0 <= depth
    requires Kept(before, e, after, n, depth + 1) && Ordered(before[..e], depth)
    ensures Surviving(after[..n], depth) <= e
    ensures Kept(before, e, after, Surviving(after[..n], depth), depth)
  {
    var f := Frozen(e);
    var k := Surviving(after[..n], depth);
    forall i | 0 <= i < f
      ensures after[..n][i].depth <= depth
    {
      assert after[i] == after[..f][i] == before[..f][i] == before[..e][i];
    }
    assert f == 0 || after[..n][f - 1].depth <= depth;
    if f < k {
      KeptAt(before, e, after, n, depth + 1, k - 1);
      assert after[..n][k - 1] == after[k - 1];
    }
    forall i | f <= i < k
      ensures KeptSlot(before, e, after, depth, i)
    {
      assert i == k - 1 && after[i] == after[..n][k - 1];
      KeptAt(before, e, after, n, depth + 1, i);
    }
  }

  /** When the scope was opened with a free slot left, endScope gives back
      exactly the locals the enclosing scope had: their number and their
      contents; every local it drops belongs to the scope it closes. */
  lemma {:induction false} ScopeRestored(before: seq<Local>, e: nat, after: seq<Local>, n: nat, depth: int)
    requires 0 <= depth && e < LocalsMax
    requires Kept(before, e, after, n, depth + 1) && Ordered(before[..e], depth)
    ensures e <= n && Surviving(after[..n], depth) == e
    ensures after[..e] == before[..e]
    ensures forall i :: e <= i < n ==> after[i].depth == depth + 1
  {
    assert Frozen(e) == e;
    forall i | e <= i < n
      ensures after[i].depth == depth + 1
    {
      KeptAt(before, e, after, n, depth + 1, i);
    }
    if 0 < e {
      assert after[..n][e - 1] == after[..e][e - 1] == before[..e][e - 1];
    }
    SurvivingUnique(after[..n], depth, e);
  }

  /** Every local endScope drops belongs to the scope it closes. */
  lemma {:induction false} ScopeDropped(before: seq<Local>, e: nat, after: seq<Local>, n: nat, depth: int)
    requires 0 <= depth
    requires Kept(before, e, after, n, depth + 1) && Ordered(before[..e], depth)
    ensures forall i :: Surviving(after[..n], depth) <= i < n ==> after[i].depth == depth + 1
  {
    var k := Surviving(after[..n], depth);
    var f := Frozen(e);
    forall i | k <= i < n
      ensures after[i].depth == depth + 1
    {
      assert after[..n][i] == after[i];
      if i < f {
        assert after[..n][i] == before[..e][i] by {
          assert after[i] == after[..f][i] == before[..f][i];
        }
        assert false;
      }
      KeptAt(before, e, after, n, depth + 1, i);
    }
  }

  /** Everything endScope does to a scope that kept the enclosing locals,
      with `after[..n]` the stack it closes. */
  lemma ScopeExit(before: seq<Local>, e: nat, after: seq<Local>, n: nat, depth: int)
    requires 0 <= depth
    requires Kept(before, e, after, n, depth + 1) && Ordered(before[..e], depth)
    ensures var k := Surviving(after[..n], depth);
            Kept(before, e, after, k, depth) && Ordered(after[..k], depth) &&
            (forall i :: k <= i < n ==> after[i].depth == depth + 1) &&
            (e < LocalsMax ==> k == e && after[..e] == before[..e])
  {
    ScopeClosed(before, e, after, n, depth);
    ScopeDropped(before, e, after, n, depth);
    if e < LocalsMax {
      ScopeRestored(before, e, after, n, depth);
    }
    KeptOrdered(before, e, after, Surviving(after[..n], depth), depth);
  }
}
