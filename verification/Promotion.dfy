/**
 Connectivity validation of a push and the order in which its objects are written.
 An explicit-stack depth-first walk lists the new objects children first; regrouping
 that list by kind keeps children first, so every prefix of the writes is closed.
 */
module Promotion {
  import opened Options
  import opened Reachability
  import opened GitObjects

  datatype Step = Enter(oid: Oid, referencedBy: Option<Oid>) | Emit(oid: Oid)

  datatype Rejection = Connectivity(missing: Oid, referencedBy: Option<Oid>)

  datatype Validation = Valid(postOrder: seq<Oid>) | Invalid(rejection: Rejection)

  // ---------------------------------------------------------- children first

  /** Each object's children are in `base` or earlier in `s`. */
  ghost predicate ChildrenFirst(objects: Objects, base: set<Oid>, s: seq<Oid>)
    decreases |s|
  {
    s == [] ||
    (s[0] in objects && (forall c :: c in Children(objects[s[0]]) ==> c in base)
     && ChildrenFirst(objects, base + {s[0]}, s[1..]))
  }

  lemma {:induction false} ChildrenFirstConcat(objects: Objects, base: set<Oid>, a: seq<Oid>, b: seq<Oid>)
    ensures ChildrenFirst(objects, base, a + b) <==>
            ChildrenFirst(objects, base, a) && ChildrenFirst(objects, base + Elements(a), b)
    decreases |a|
  {
    if a == [] {
      assert a + b == b && base + Elements(a) == base;
    } else {
      assert (a + b)[1..] == a[1..] + b;
      assert base + {a[0]} + Elements(a[1..]) == base + Elements(a);
      ChildrenFirstConcat(objects, base + {a[0]}, a[1..], b);
    }
  }

  lemma {:induction false} ChildrenFirstMore(objects: Objects, base: set<Oid>, more: set<Oid>, s: seq<Oid>)
    requires base <= more && ChildrenFirst(objects, base, s)
    ensures ChildrenFirst(objects, more, s)
    decreases |s|
  {
    if s != [] {
      ChildrenFirstMore(objects, base + {s[0]}, more + {s[0]}, s[1..]);
    }
  }

  /** Everything in `s` has its children in `s`, so its whole closure. */
  ghost predicate Closed(objects: Objects, s: set<Oid>) {
    forall x, c :: x in s && x in objects && c in Children(objects[x]) ==> c in s
  }

  /** Writing a children-first list on a closed store keeps the store closed after every write. */
  lemma {:induction false} WritePrefixClosed(objects: Objects, base: set<Oid>, s: seq<Oid>, n: nat)
    requires Closed(objects, base) && ChildrenFirst(objects, base, s) && n <= |s|
    ensures Closed(objects, base + Elements(s[..n]))
    decreases n
  {
    if n == 0 {
      assert base + Elements(s[..0]) == base;
    } else {
      WritePrefixClosed(objects, base + {s[0]}, s[1..], n - 1);
      assert s[..n] == [s[0]] + s[1..][..n - 1];
      assert base + {s[0]} + Elements(s[1..][..n - 1]) == base + Elements(s[..n]);
    }
  }

  // -------------------------------------------------------------- validation

  datatype Walk = Walk(stack: seq<Step>, done: set<Oid>, post: seq<Oid>)

  /** The children of `oid` as stack entries, so that the first child is on top. */
  function EnterAll(children: seq<Oid>, oid: Oid): (r: seq<Step>)
    ensures |r| == |children|
    ensures forall i :: 0 <= i < |r| ==> r[i] == Enter(children[|children| - 1 - i], Some(oid))
  {
    if children == [] then [] else EnterAll(children[1..], oid) + [Enter(children[0], Some(oid))]
  }

  /** One iteration of the walk against what the store holds at that moment. */
  function WalkStep(staged: Objects, stored: set<Oid>, w: Walk): Walk
    requires w.stack != []
  {
    var top, rest := w.stack[|w.stack| - 1], w.stack[..|w.stack| - 1];
    match top
    case Emit(oid) => Walk(rest, w.done, w.post + [oid])
    case Enter(oid, _) =>
      if oid in w.done then Walk(rest, w.done, w.post)
      else if oid in stored || oid !in staged then Walk(rest, w.done + {oid}, w.post)
      else Walk(rest + [Emit(oid)] + EnterAll(Children(staged[oid]), oid), w.done + {oid}, w.post)
  }

  /** The push is rejected at the top of the stack: neither stored nor staged. */
  predicate Stuck(staged: Objects, stored: set<Oid>, w: Walk)
    requires w.stack != []
  {
    var top := w.stack[|w.stack| - 1];
    top.Enter? && top.oid !in w.done && top.oid !in stored && top.oid !in staged
  }

  ghost predicate OnStackAbove(stack: seq<Step>, i: int, x: Oid) {
    exists j :: 0 <= j < |stack| && i < j && stack[j].oid == x
  }

  ghost predicate EmitOnStack(stack: seq<Step>, x: Oid) {
    exists j :: 0 <= j < |stack| && stack[j] == Emit(x)
  }

  /** What is above an object waiting to be emitted lies below it in the object graph. */
  ghost predicate Nested(rank: Oid -> nat, stack: seq<Step>) {
    forall i, j :: 0 <= i < j < |stack| && stack[i].Emit? ==> rank(stack[j].oid) < rank(stack[i].oid)
  }

  ghost predicate WaitsFor(staged: Objects, step: Step, c: Oid) {
    step.Emit? && step.oid in staged && c in Children(staged[step.oid])
  }

  /** Every child of an object waiting to be emitted is stored, emitted, or above it on the stack. */
  ghost predicate ChildrenPending(staged: Objects, stored: set<Oid>, w: Walk) {
    forall i, c :: 0 <= i < |w.stack| && WaitsFor(staged, w.stack[i], c) ==>
      c in stored || c in w.post || OnStackAbove(w.stack, i, c)
  }

  ghost predicate Settled(staged: Objects, stored: set<Oid>, w: Walk) {
    && (forall x :: x in w.done ==> x in stored || x in w.post || EmitOnStack(w.stack, x))
    && (forall x :: x in w.post ==> x in w.done && x in staged)
    && (forall i :: 0 <= i < |w.stack| && w.stack[i].Emit? ==>
         w.stack[i].oid in w.done && w.stack[i].oid in staged && w.stack[i].oid !in w.post)
    && (forall i, j :: 0 <= i < j < |w.post| ==> w.post[i] != w.post[j])
  }

  /** What the walk keeps. It stays true when the store gains objects meanwhile. */
  ghost predicate WalkInv(staged: Objects, rank: Oid -> nat, tips: set<Oid>, stored: set<Oid>, w: Walk) {
    && Nested(rank, w.stack)
    && ChildrenPending(staged, stored, w)
    && Settled(staged, stored, w)
    && ChildrenFirst(staged, stored, w.post)
    && (forall t :: t in tips ==> t in w.done || OnStackAbove(w.stack, -1, t))
  }

  lemma StoreGrowthKeeps(staged: Objects, rank: Oid -> nat, tips: set<Oid>, stored: set<Oid>, more: set<Oid>, w: Walk)
    requires WalkInv(staged, rank, tips, stored, w) && stored <= more
    ensures WalkInv(staged, rank, tips, more, w)
  {
    ChildrenFirstMore(staged, stored, more, w.post);
  }

  /** Popping the top loses an entry for `x` only if the top was it. */
  lemma PopAbove(stack: seq<Step>, i: int, x: Oid)
    requires OnStackAbove(stack, i, x) && stack != []
    ensures stack[|stack| - 1].oid == x || OnStackAbove(stack[..|stack| - 1], i, x)
  {
    var j :| 0 <= j < |stack| && i < j && stack[j].oid == x;
    if j < |stack| - 1 {
      assert stack[..|stack| - 1][j].oid == x;
    }
  }

  lemma PushAbove(stack: seq<Step>, more: seq<Step>, i: int, x: Oid)
    requires OnStackAbove(stack, i, x)
    ensures OnStackAbove(stack + more, i, x)
  {
    var j :| 0 <= j < |stack| && i < j && stack[j].oid == x;
    assert (stack + more)[j].oid == x;
  }

  lemma StepNested(staged: Objects, rank: Oid -> nat, stored: set<Oid>, w: Walk)
    requires Acyclic(staged, rank) && w.stack != [] && Nested(rank, w.stack)
    ensures Nested(rank, WalkStep(staged, stored, w).stack)
  {
    var n := |w.stack| - 1;
    var w' := WalkStep(staged, stored, w);
    forall i, j | 0 <= i < j < |w'.stack| && w'.stack[i].Emit?
      ensures rank(w'.stack[j].oid) < rank(w'.stack[i].oid)
    {
      if j < n {
        assert w'.stack[i] == w.stack[i] && w'.stack[j] == w.stack[j];
      } else {
        var x := w.stack[n].oid;
        assert j == n ==> w'.stack[j] == Emit(x);
        assert j > n ==> w'.stack[j].oid in Children(staged[x]) && rank(w'.stack[j].oid) < rank(x);
        assert i < n ==> w'.stack[i] == w.stack[i] && rank(x) < rank(w'.stack[i].oid);
      }
    }
  }

  lemma StepChildrenPending(staged: Objects, rank: Oid -> nat, stored: set<Oid>, w: Walk)
    requires Acyclic(staged, rank) && w.stack != [] && !Stuck(staged, stored, w)
    requires Nested(rank, w.stack) && Settled(staged, stored, w) && ChildrenPending(staged, stored, w)
    ensures ChildrenPending(staged, stored, WalkStep(staged, stored, w))
  {
    hide Acyclic, Settled, Nested;
    var n := |w.stack| - 1;
    var rest := w.stack[..n];
    var w' := WalkStep(staged, stored, w);
    forall i, c | 0 <= i < |w'.stack| && w'.stack[i].Emit? && w'.stack[i].oid in staged
      && c in Children(staged[w'.stack[i].oid])
      ensures c in stored || c in w'.post || OnStackAbove(w'.stack, i, c)
    {
      if i < n {
        assert w'.stack[i] == w.stack[i];
        if c !in stored && c !in w.post {
          PopAbove(w.stack, i, c);
          if OnStackAbove(rest, i, c) {
            PushAbove(rest, w'.stack[n..], i, c);
            assert rest + w'.stack[n..] == w'.stack;
          } else {
            TopChild(staged, rank, stored, w, i, c);
          }
        }
      } else {
        assert i == n && w'.stack[n] == Emit(w.stack[n].oid);
        NewChildren(staged, w', n, w.stack[n].oid, c);
      }
    }
  }

  /** An object entered again while its `Emit` still waits would be its own descendant. */
  lemma TopIsNew(staged: Objects, rank: Oid -> nat, stored: set<Oid>, w: Walk)
    requires w.stack != [] && Nested(rank, w.stack) && Settled(staged, stored, w)
    requires var top := w.stack[|w.stack| - 1]; top.Enter? && top.oid !in stored && top.oid !in w.post
    ensures w.stack[|w.stack| - 1].oid !in w.done
  {
    var c := w.stack[|w.stack| - 1].oid;
    assert forall j :: 0 <= j < |w.stack| ==> w.stack[j] != Emit(c);
  }

  /** The popped top was the only entry for a child: it is done and waits, or has just been entered. */
  lemma TopChild(staged: Objects, rank: Oid -> nat, stored: set<Oid>, w: Walk, i: nat, c: Oid)
    requires Acyclic(staged, rank) && w.stack != [] && !Stuck(staged, stored, w)
    requires Nested(rank, w.stack) && Settled(staged, stored, w)
    requires i < |w.stack| - 1 && w.stack[i].Emit? && w.stack[i].oid in staged && c in Children(staged[w.stack[i].oid])
    requires w.stack[|w.stack| - 1].oid == c && c !in stored && c !in w.post
    ensures var w' := WalkStep(staged, stored, w); c in w'.post || OnStackAbove(w'.stack, i, c)
  {
    hide Acyclic, Settled, Nested;
    var n := |w.stack| - 1;
    var w' := WalkStep(staged, stored, w);
    if w.stack[n].Enter? {
      TopIsNew(staged, rank, stored, w);
      assert w'.stack[n] == Emit(c);
    }
  }

  lemma NewChildren(staged: Objects, w': Walk, n: nat, x: Oid, c: Oid)
    requires x in staged && c in Children(staged[x]) && n < |w'.stack|
    requires w'.stack[n + 1..] == EnterAll(Children(staged[x]), x)
    ensures OnStackAbove(w'.stack, n, c)
  {
    var cs := Children(staged[x]);
    var k :| 0 <= k < |cs| && cs[k] == c;
    assert w'.stack[n + 1..][|cs| - 1 - k].oid == c;
    assert w'.stack[n + 1 + (|cs| - 1 - k)].oid == c;
  }

  lemma StepSettled(staged: Objects, rank: Oid -> nat, stored: set<Oid>, w: Walk)
    requires w.stack != [] && !Stuck(staged, stored, w)
    requires Nested(rank, w.stack) && Settled(staged, stored, w)
    ensures Settled(staged, stored, WalkStep(staged, stored, w))
  {
    var n := |w.stack| - 1;
    var w' := WalkStep(staged, stored, w);
    var x := w.stack[n].oid;
    forall y | y in w'.done
      ensures y in stored || y in w'.post || EmitOnStack(w'.stack, y)
    {
      if y in w.done && y !in stored && y !in w'.post {
        var j :| 0 <= j < |w.stack| && w.stack[j] == Emit(y);
        assert w'.stack[j] == Emit(y);
      } else if y !in w.done && y !in stored {
        assert w'.stack[n] == Emit(y);
      }
    }
    forall i | 0 <= i < |w'.stack| && w'.stack[i].Emit?
      ensures w'.stack[i].oid in w'.done && w'.stack[i].oid in staged && w'.stack[i].oid !in w'.post
    {
      if i < n {
        assert w'.stack[i] == w.stack[i];
        assert w.stack[n].Emit? ==> w.stack[i].oid != x;
      }
    }
  }

  lemma StepChildrenFirst(staged: Objects, stored: set<Oid>, w: Walk)
    requires w.stack != [] && Settled(staged, stored, w) && ChildrenPending(staged, stored, w)
    requires ChildrenFirst(staged, stored, w.post)
    ensures ChildrenFirst(staged, stored, WalkStep(staged, stored, w).post)
  {
    var n := |w.stack| - 1;
    if w.stack[n].Emit? {
      var x := w.stack[n].oid;
      forall c | c in Children(staged[x])
        ensures c in stored + Elements(w.post)
      {
        assert !OnStackAbove(w.stack, n, c);
      }
      assert ChildrenFirst(staged, stored + Elements(w.post), [x]);
      ChildrenFirstConcat(staged, stored, w.post, [x]);
    }
  }

  lemma StepTips(staged: Objects, tips: set<Oid>, stored: set<Oid>, w: Walk)
    requires w.stack != [] && Settled(staged, stored, w)
    requires forall t :: t in tips ==> t in w.done || OnStackAbove(w.stack, -1, t)
    ensures var w' := WalkStep(staged, stored, w); forall t :: t in tips ==>
            t in w'.done || OnStackAbove(w'.stack, -1, t)
  {
    var n := |w.stack| - 1;
    var rest := w.stack[..n];
    var w' := WalkStep(staged, stored, w);
    forall t | t in tips && t !in w'.done
      ensures OnStackAbove(w'.stack, -1, t)
    {
      PopAbove(w.stack, -1, t);
      PushAbove(rest, w'.stack[n..], -1, t);
      assert rest + w'.stack[n..] == w'.stack;
    }
  }

  lemma StepKeeps(staged: Objects, rank: Oid -> nat, tips: set<Oid>, stored: set<Oid>, w: Walk)
    requires Acyclic(staged, rank) && w.stack != [] && !Stuck(staged, stored, w)
    requires WalkInv(staged, rank, tips, stored, w)
    ensures WalkInv(staged, rank, tips, stored, WalkStep(staged, stored, w))
  {
    hide Acyclic, Settled, Nested, ChildrenPending, ChildrenFirst, WalkStep, Stuck, OnStackAbove;
    StepNested(staged, rank, stored, w);
    StepChildrenPending(staged, rank, stored, w);
    StepSettled(staged, rank, stored, w);
    StepChildrenFirst(staged, stored, w);
    StepTips(staged, tips, stored, w);
  }

  // ------------------------------------------------- what validation decides

  /** The references a push must resolve: from staged objects the store does not hold. */
  ghost function NewEdges(staged: Objects, stored: set<Oid>): Edges {
    map x | x in staged && x !in stored :: Children(staged[x])
  }

  /** An edge of the walk comes from a tip or from a new object that refers to it. */
  ghost predicate Referenced(staged: Objects, stored: set<Oid>, tips: set<Oid>, x: Oid, parent: Option<Oid>) {
    match parent
    case None => x in tips
    case Some(p) =>
      var e := NewEdges(staged, stored);
      Reachable(e, tips, p) && p in e && x in e[p]
  }

  ghost predicate OnlyReached(staged: Objects, stored: set<Oid>, tips: set<Oid>, w: Walk) {
    && (forall x :: x in w.done ==> Reachable(NewEdges(staged, stored), tips, x))
    && (forall i :: 0 <= i < |w.stack| && w.stack[i].Enter? ==>
         Referenced(staged, stored, tips, w.stack[i].oid, w.stack[i].referencedBy))
    && (forall i :: 0 <= i < |w.stack| && w.stack[i].Emit? ==> w.stack[i].oid !in stored)
    && (forall x :: x in w.post ==> x !in stored)
  }

  lemma ReferencedIsReached(staged: Objects, stored: set<Oid>, tips: set<Oid>, x: Oid, parent: Option<Oid>)
    requires Referenced(staged, stored, tips, x, parent)
    ensures Reachable(NewEdges(staged, stored), tips, x)
  {
    if parent.None? {
      ReachRoot(NewEdges(staged, stored), tips, x);
    } else {
      ReachStep(NewEdges(staged, stored), tips, parent.value, x);
    }
  }

  lemma StepOnlyReached(staged: Objects, stored: set<Oid>, tips: set<Oid>, w: Walk)
    requires w.stack != [] && OnlyReached(staged, stored, tips, w)
    ensures OnlyReached(staged, stored, tips, WalkStep(staged, stored, w))
  {
    hide Reachable;
    var n := |w.stack| - 1;
    var w' := WalkStep(staged, stored, w);
    var x := w.stack[n].oid;
    if w.stack[n].Enter? {
      ReferencedIsReached(staged, stored, tips, x, w.stack[n].referencedBy);
    }
    forall i | 0 <= i < |w'.stack| && w'.stack[i].Enter?
      ensures Referenced(staged, stored, tips, w'.stack[i].oid, w'.stack[i].referencedBy)
    {
      if i < n {
        assert w'.stack[i] == w.stack[i];
      } else {
        assert i > n && w'.stack[i].oid in Children(staged[x]);
      }
    }
  }

  /** With an empty stack the list is exactly the reachable objects the store lacks. */
  lemma WalkComplete(staged: Objects, rank: Oid -> nat, tips: set<Oid>, stored: set<Oid>, w: Walk)
    requires WalkInv(staged, rank, tips, stored, w) && OnlyReached(staged, stored, tips, w) && w.stack == []
    ensures forall x :: x in w.post <==> Reachable(NewEdges(staged, stored), tips, x) && x !in stored
  {
    hide Reachable, ChildrenFirst;
    forall x | x in w.post
      ensures Reachable(NewEdges(staged, stored), tips, x)
    {
    }
    forall x, c | x in w.post && c in Children(staged[x])
      ensures c in stored || c in w.post
    {
      ChildrenFirstAll(staged, stored, w.post, x, c);
    }
    ReachClosed(NewEdges(staged, stored), tips, iset x | x in stored || x in w.post);
  }

  lemma {:induction false} ChildrenFirstAll(objects: Objects, base: set<Oid>, s: seq<Oid>, x: Oid, c: Oid)
    requires ChildrenFirst(objects, base, s) && x in s
    ensures x in objects && (c in Children(objects[x]) ==> c in base || c in s)
    decreases |s|
  {
    if x != s[0] {
      ChildrenFirstAll(objects, base + {s[0]}, s[1..], x, c);
    }
  }

  /** Push the tips so that the first is explored first. */
  function EnterTips(tips: seq<Oid>): (r: seq<Step>)
    ensures |r| == |tips|
    ensures forall i :: 0 <= i < |r| ==> r[i] == Enter(tips[|tips| - 1 - i], None)
  {
    if tips == [] then [] else EnterTips(tips[1..]) + [Enter(tips[0], None)]
  }

  lemma StartKeeps(staged: Objects, rank: Oid -> nat, tips: seq<Oid>, stored: set<Oid>)
    ensures WalkInv(staged, rank, Elements(tips), stored, Walk(EnterTips(tips), {}, []))
    ensures OnlyReached(staged, stored, Elements(tips), Walk(EnterTips(tips), {}, []))
  {
    var stack := EnterTips(tips);
    forall t | t in tips
      ensures OnStackAbove(stack, -1, t)
    {
      var k :| 0 <= k < |tips| && tips[k] == t;
      assert stack[|tips| - 1 - k].oid == t;
    }
    forall i | 0 <= i < |stack|
      ensures stack[i].oid in tips
    {
    }
  }

  /**
   Decide whether everything reachable from the tips resolves. Accepted exactly when every
   reachable object the store lacks is staged; then exactly those are listed, once, children first.
   */
  method Validate(staged: Objects, tips: seq<Oid>, stored: set<Oid>, ghost rank: Oid -> nat) returns (r: Validation)
    requires Acyclic(staged, rank)
    ensures r.Valid? <==>
            forall x :: Reachable(NewEdges(staged, stored), Elements(tips), x) ==> x in stored || x in staged
    ensures r.Valid? ==> ChildrenFirst(staged, stored, r.postOrder)
    ensures r.Valid? ==> forall i, j :: 0 <= i < j < |r.postOrder| ==> r.postOrder[i] != r.postOrder[j]
    ensures r.Valid? ==>
            forall x :: x in r.postOrder <==> Reachable(NewEdges(staged, stored), Elements(tips), x) && x !in stored
    ensures r.Invalid? ==> r.rejection.missing !in stored && r.rejection.missing !in staged
    ensures r.Invalid? ==>
            Referenced(staged, stored, Elements(tips), r.rejection.missing, r.rejection.referencedBy)
  {
    hide Reachable, Acyclic, WalkInv, OnlyReached, ChildrenFirst, Children;
    var stack: seq<Step> := EnterTips(tips);
    var done: set<Oid>, post: seq<Oid> := {}, [];
    StartKeeps(staged, rank, tips, stored);
    while stack != []
      invariant WalkInv(staged, rank, Elements(tips), stored, Walk(stack, done, post))
      invariant OnlyReached(staged, stored, Elements(tips), Walk(stack, done, post))
      decreases staged.Keys - done, |stack|
    {
      ghost var w := Walk(stack, done, post);
      var step := stack[|stack| - 1];
      stack := stack[..|stack| - 1];
      StepOnlyReached(staged, stored, Elements(tips), w);
      match step {
      case Emit(oid) =>
        post := post + [oid];
      case Enter(oid, referencedBy) =>
        if oid !in done {
          done := done + {oid};
          if oid !in stored {
            if oid !in staged {
              RejectedAt(staged, stored, Elements(tips), w);
              ReferencedIsReached(staged, stored, Elements(tips), oid, referencedBy);
              return Invalid(Connectivity(oid, referencedBy));
            }
            stack := stack + [Emit(oid)] + EnterAll(Children(staged[oid]), oid);
          }
        }
      }
      StepKeeps(staged, rank, Elements(tips), stored, w);
      assert Walk(stack, done, post) == WalkStep(staged, stored, w);
    }
    WalkComplete(staged, rank, Elements(tips), stored, Walk(stack, done, post));
    PostFacts(staged, rank, Elements(tips), stored, Walk(stack, done, post));
    r := Valid(post);
  }

  lemma RejectedAt(staged: Objects, stored: set<Oid>, tips: set<Oid>, w: Walk)
    requires OnlyReached(staged, stored, tips, w) && w.stack != [] && w.stack[|w.stack| - 1].Enter?
    ensures var top := w.stack[|w.stack| - 1]; Referenced(staged, stored, tips, top.oid, top.referencedBy)
  {
  }

  lemma PostFacts(staged: Objects, rank: Oid -> nat, tips: set<Oid>, stored: set<Oid>, w: Walk)
    requires WalkInv(staged, rank, tips, stored, w)
    ensures ChildrenFirst(staged, stored, w.post)
    ensures forall x :: x in w.post ==> x in staged
    ensures forall i, j :: 0 <= i < j < |w.post| ==> w.post[i] != w.post[j]
  {
  }

  // ------------------------------------------------------------- write order

  /** Blobs, then trees, then commits, then tags. */
  function Order(k: Kind): nat {
    match k
    case Blob => 0
    case Tree => 1
    case Commit => 2
    case Tag => 3
  }

  function OfKind(objects: Objects, s: seq<Oid>, k: Kind): (r: seq<Oid>)
    requires forall x :: x in s ==> x in objects
    ensures forall x :: x in r <==> x in s && KindOf(objects[x]) == k
  {
    if s == [] then []
    else if KindOf(objects[s[0]]) == k then [s[0]] + OfKind(objects, s[1..], k)
    else OfKind(objects, s[1..], k)
  }

  function WriteOrder(objects: Objects, s: seq<Oid>): seq<Oid>
    requires forall x :: x in s ==> x in objects
  {
    OfKind(objects, s, Blob) + OfKind(objects, s, Tree) + OfKind(objects, s, Commit) + OfKind(objects, s, Tag)
  }

  /** References never go to a kind that is written later. */
  lemma ChildKindsEarlier(objects: Objects, kind: Oid -> Kind, x: Oid, c: Oid)
    requires KindsAgree(objects, kind) && x in objects && c in Children(objects[x])
    ensures Order(kind(c)) <= Order(kind(x))
  {
    if objects[x].TreeObject? {
      assert ModesAgree(objects[x].entries, kind);
    }
  }

  /** No listed object refers to an unstored object of a kind that is written later. */
  ghost predicate KindsOrdered(objects: Objects, base: set<Oid>, s: seq<Oid>) {
    forall x, c :: x in s && x in objects && c in Children(objects[x]) && c !in base ==>
      c in objects && Order(KindOf(objects[c])) <= Order(KindOf(objects[x]))
  }

  /** One kind's part of a children-first list is children first once the earlier kinds are there. */
  lemma {:induction false} OfKindFirst(objects: Objects, store: set<Oid>, base: set<Oid>, s: seq<Oid>, k: Kind,
                                       there: set<Oid>)
    requires KindsOrdered(objects, store, s) && ChildrenFirst(objects, base, s) && forall x :: x in s ==> x in objects
    requires store <= there
    requires forall x :: x in base && x !in there ==> x in objects && Order(KindOf(objects[x])) > Order(k)
    requires forall x :: x in s && Order(KindOf(objects[x])) < Order(k) ==> x in there
    ensures ChildrenFirst(objects, there, OfKind(objects, s, k))
    decreases |s|
  {
    hide Children;
    if s != [] {
      var x := s[0];
      assert x in s && forall y :: y in s[1..] ==> y in s;
      if KindOf(objects[x]) == k {
        OfKindFirst(objects, store, base + {x}, s[1..], k, there + {x});
        assert OfKind(objects, s, k)[1..] == OfKind(objects, s[1..], k);
      } else {
        OfKindFirst(objects, store, base + {x}, s[1..], k, there);
      }
    }
  }

  lemma SameKind(objects: Objects, kind: Oid -> Kind, x: Oid)
    requires KindsAgree(objects, kind) && x in objects
    ensures kind(x) == KindOf(objects[x])
  {
  }

  /** Grouping by kind drops and repeats nothing. */
  lemma {:induction false} WriteOrderPermutes(objects: Objects, s: seq<Oid>)
    requires forall x :: x in s ==> x in objects
    ensures multiset(WriteOrder(objects, s)) == multiset(s)
    decreases |s|
  {
    hide OfKind;
    WriteOrderCounts(objects, s);
    if s == [] {
      OfKindNil(objects);
    } else {
      WriteOrderPermutes(objects, s[1..]);
      WriteOrderCounts(objects, s[1..]);
      assert s == [s[0]] + s[1..];
      OfKindHead(objects, s);
    }
  }

  lemma WriteOrderCounts(objects: Objects, s: seq<Oid>)
    requires forall x :: x in s ==> x in objects
    ensures multiset(WriteOrder(objects, s)) ==
            multiset(OfKind(objects, s, Blob)) + multiset(OfKind(objects, s, Tree))
            + multiset(OfKind(objects, s, Commit)) + multiset(OfKind(objects, s, Tag))
  {
  }

  lemma OfKindHead(objects: Objects, s: seq<Oid>)
    requires s != [] && forall x :: x in s ==> x in objects
    ensures forall k :: multiset(OfKind(objects, s, k)) ==
        multiset(OfKind(objects, s[1..], k)) + (if KindOf(objects[s[0]]) == k then multiset{s[0]} else multiset{})
  {
  }

  /** Ordered kinds are enough for the grouped list to be children first. */
  lemma OrderedKeepsFirst(objects: Objects, base: set<Oid>, s: seq<Oid>)
    requires KindsOrdered(objects, base, s) && ChildrenFirst(objects, base, s) && forall x :: x in s ==> x in objects
    ensures ChildrenFirst(objects, base, WriteOrder(objects, s))
  {
    hide KindsOrdered, ChildrenFirst;
    var b, t := OfKind(objects, s, Blob), OfKind(objects, s, Tree);
    var c, g := OfKind(objects, s, Commit), OfKind(objects, s, Tag);
    OfKindFirst(objects, base, base, s, Blob, base);
    OfKindFirst(objects, base, base, s, Tree, base + Elements(b));
    ChildrenFirstConcat(objects, base, b, t);
    OfKindFirst(objects, base, base, s, Commit, base + Elements(b + t));
    ChildrenFirstConcat(objects, base, b + t, c);
    OfKindFirst(objects, base, base, s, Tag, base + Elements(b + t + c));
    ChildrenFirstConcat(objects, base, b + t + c, g);
  }

  /** And they are necessary: an object's part of the list has only earlier kinds before it. */
  lemma FirstNeedsOrder(objects: Objects, base: set<Oid>, s: seq<Oid>, x: Oid, y: Oid)
    requires (forall z :: z in s ==> z in objects) && ChildrenFirst(objects, base, WriteOrder(objects, s))
    requires x in s && y in Children(objects[x]) && y !in base
    ensures y in objects && Order(KindOf(objects[y])) <= Order(KindOf(objects[x]))
  {
    hide ChildrenFirst, Children;
    var b, t := OfKind(objects, s, Blob), OfKind(objects, s, Tree);
    var c, g := OfKind(objects, s, Commit), OfKind(objects, s, Tag);
    ChildrenFirstConcat(objects, base, b + t + c, g);
    ChildrenFirstConcat(objects, base, b + t, c);
    ChildrenFirstConcat(objects, base, b, t);
    match KindOf(objects[x])
    case Blob => ChildrenFirstAll(objects, base, b, x, y);
    case Tree => ChildrenFirstAll(objects, base + Elements(b), t, x, y);
    case Commit => ChildrenFirstAll(objects, base + Elements(b + t), c, x, y);
    case Tag => ChildrenFirstAll(objects, base + Elements(b + t + c), g, x, y);
  }

  /** Grouping a children-first list by kind keeps children first exactly when no reference goes to a later kind. */
  lemma WriteOrderFirstIff(objects: Objects, base: set<Oid>, s: seq<Oid>)
    requires ChildrenFirst(objects, base, s) && forall x :: x in s ==> x in objects
    ensures ChildrenFirst(objects, base, WriteOrder(objects, s)) <==> KindsOrdered(objects, base, s)
  {
    hide ChildrenFirst, WriteOrder, Children;
    if KindsOrdered(objects, base, s) {
      OrderedKeepsFirst(objects, base, s);
    }
    if ChildrenFirst(objects, base, WriteOrder(objects, s)) {
      forall x, c | x in s && x in objects && c in Children(objects[x]) && c !in base
        ensures c in objects && Order(KindOf(objects[c])) <= Order(KindOf(objects[x]))
      {
        FirstNeedsOrder(objects, base, s, x, c);
      }
    }
  }

  /** Agreeing kinds, which the walk does not check, give that order. */
  lemma WriteOrderFirst(objects: Objects, kind: Oid -> Kind, base: set<Oid>, s: seq<Oid>)
    requires KindsAgree(objects, kind) && ChildrenFirst(objects, base, s) && forall x :: x in s ==> x in objects
    ensures ChildrenFirst(objects, base, WriteOrder(objects, s))
    ensures forall x :: x in WriteOrder(objects, s) <==> x in s
  {
    hide KindsAgree, ChildrenFirst, Children;
    forall x, c | x in s && x in objects && c in Children(objects[x]) && c !in base
      ensures c in objects && Order(KindOf(objects[c])) <= Order(KindOf(objects[x]))
    {
      ChildKindsEarlier(objects, kind, x, c);
      ChildrenFirstAll(objects, base, s, x, c);
      SameKind(objects, kind, x);
      SameKind(objects, kind, c);
    }
    OrderedKeepsFirst(objects, base, s);
  }

  /** A commit and its tree, and a second tree whose leaf entry names the commit. */
  const MISNAMED: Objects := map[1 := CommitObject(2, []), 2 := TreeObject([]), 3 := TreeObject([Leaf(1)])]

  lemma MisnamedChildren()
    ensures MISNAMED.Keys == {1, 2, 3}
    ensures Children(MISNAMED[1]) == [2] && Children(MISNAMED[2]) == [] && Children(MISNAMED[3]) == [1]
  {
    assert [Leaf(1)][1..] == [];
  }

  lemma MisnamedFirst()
    ensures ChildrenFirst(MISNAMED, {}, [2, 1, 3])
  {
    hide Children;
    MisnamedChildren();
    assert ChildrenFirst(MISNAMED, {2, 1, 3}, []);
    assert {2, 1} + {3} == {2, 1, 3} && [3][1..] == [];
    assert ChildrenFirst(MISNAMED, {2, 1}, [3]);
    assert {2} + {1} == {2, 1} && [1, 3][1..] == [3];
    assert ChildrenFirst(MISNAMED, {2}, [1, 3]);
    assert {} + {2} == {2} && [2, 1, 3][1..] == [1, 3];
  }

  lemma MisnamedOfKind(k: Kind)
    ensures forall x :: x in [2, 1, 3] ==> x in MISNAMED
    ensures OfKind(MISNAMED, [2, 1, 3], k) == (if k == Tree then [2, 3] else if k == Commit then [1] else [])
  {
    assert OfKind(MISNAMED, [3], k) == (if k == Tree then [3] else []) by {
      assert [3][1..] == [];
    }
    assert OfKind(MISNAMED, [1, 3], k) == (if k == Tree then [3] else if k == Commit then [1] else []) by {
      assert [1, 3][1..] == [3];
    }
    assert [2, 1, 3][1..] == [1, 3];
  }

  lemma MisnamedOrder()
    ensures (forall x :: x in [2, 1, 3] ==> x in MISNAMED) && WriteOrder(MISNAMED, [2, 1, 3]) == [2, 3, 1]
  {
    hide OfKind;
    MisnamedOfKind(Blob);
    MisnamedOfKind(Tree);
    MisnamedOfKind(Commit);
    MisnamedOfKind(Tag);
  }

  /** The walk's order for it is children first; its write order leaves a prefix that is not closed. */
  lemma MisnamedLeafBreaksPrefix()
    ensures ChildrenFirst(MISNAMED, {}, [2, 1, 3])
    ensures (forall x :: x in [2, 1, 3] ==> x in MISNAMED) && WriteOrder(MISNAMED, [2, 1, 3]) == [2, 3, 1]
    ensures !Closed(MISNAMED, Elements([2, 3, 1][..2]))
  {
    hide Children, ChildrenFirst, WriteOrder;
    MisnamedFirst();
    MisnamedOrder();
    MisnamedChildren();
    assert [2, 3, 1][..2] == [2, 3];
    assert 3 in Elements([2, 3]) && 1 in Children(MISNAMED[3]) && 1 !in Elements([2, 3]);
  }

  lemma MisnamedReached()
    ensures forall x :: Reachable(NewEdges(MISNAMED, {}), {3}, x) <==> x in MISNAMED
  {
    hide Reachable, Children;
    MisnamedChildren();
    var e := NewEdges(MISNAMED, {});
    ReachRoot(e, {3}, 3);
    ReachStep(e, {3}, 3, 1);
    ReachStep(e, {3}, 1, 2);
    ReachClosed(e, {3}, iset x | x in MISNAMED);
  }

  /** No other listing of the three is children first. */
  lemma MisnamedOnlyOrder(s: seq<Oid>)
    requires ChildrenFirst(MISNAMED, {}, s)
    requires forall i, j :: 0 <= i < j < |s| ==> s[i] != s[j]
    requires forall x :: x in s <==> x in MISNAMED
    ensures s == [2, 1, 3]
  {
    hide Children;
    MisnamedChildren();
    assert 1 in s && 2 in s && 3 in s;
    assert s[0] in s && 2 in [2] && 1 in [1];
    assert s[0] == 2;
    assert ChildrenFirst(MISNAMED, {} + {2}, s[1..]);
    assert s[1] in s && s[1] == 1;
    assert ChildrenFirst(MISNAMED, {} + {2} + {1}, s[1..][1..]);
    assert s[2] in s && s[2] == 3;
  }

  /** Validation accepts this push and lists it in that order. */
  method ValidateMisnamed() returns (r: Validation)
    ensures r == Valid([2, 1, 3])
  {
    hide Children, ChildrenFirst, Reachable;
    MisnamedChildren();
    MisnamedReached();
    r := Validate(MISNAMED, [3], {}, (x: Oid) => if x == 2 then 0 else x);
    assert Elements([3]) == {3};
    MisnamedOnlyOrder(r.postOrder);
  }

  /** Partition a post-order by kind, each group in post-order. */
  method GroupByKind(objects: Objects, s: seq<Oid>)
    returns (blobs: seq<Oid>, trees: seq<Oid>, commits: seq<Oid>, tags: seq<Oid>)
    requires forall x :: x in s ==> x in objects
    ensures blobs + trees + commits + tags == WriteOrder(objects, s)
    ensures commits == OfKind(objects, s, Commit)
  {
    hide OfKind;
    blobs, trees, commits, tags := [], [], [], [];
    OfKindNil(objects);
    for i := 0 to |s|
      invariant blobs == OfKind(objects, s[..i], Blob) && trees == OfKind(objects, s[..i], Tree)
      invariant commits == OfKind(objects, s[..i], Commit) && tags == OfKind(objects, s[..i], Tag)
    {
      assert s[..i + 1] == s[..i] + [s[i]];
      OfKindSnoc(objects, s[..i], s[i]);
      match objects[s[i]]
      case BlobObject(_) => blobs := blobs + [s[i]];
      case TreeObject(_) => trees := trees + [s[i]];
      case CommitObject(_, _) => commits := commits + [s[i]];
      case TagObject(_) => tags := tags + [s[i]];
    }
    assert s[..|s|] == s;
  }

  lemma OfKindNil(objects: Objects)
    ensures forall k :: OfKind(objects, [], k) == []
  {
  }

  lemma {:induction false} OfKindSnoc(objects: Objects, s: seq<Oid>, x: Oid)
    requires x in objects && forall y :: y in s ==> y in objects
    ensures forall k ::
        OfKind(objects, s + [x], k) == OfKind(objects, s, k) + if KindOf(objects[x]) == k then [x] else []
    decreases |s|
  {
    if s == [] {
      assert [x][1..] == [];
    } else {
      assert (s + [x])[1..] == s[1..] + [x];
      OfKindSnoc(objects, s[1..], x);
    }
  }
}
