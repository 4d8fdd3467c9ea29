/** The superclass walk: it ends on every model, and passes exactly the acyclic ones. */
module SuperClasses {
  import opened Collections
  import opened ProgramModel

  /** `ProgramModel::class`: the first class with that id. */
  function FindClass(classes: seq<Class>, id: nat): (r: Option<Class>)
    ensures r.Some? ==> r.value in classes && r.value.id == id
    ensures r.None? <==> id !in ClassIds(classes)
  {
    if classes == [] then None
    else if classes[0].id == id then
      assert ClassIds(classes)[0] == id;
      Some(classes[0])
    else
      assert ClassIds(classes) == [classes[0].id] + ClassIds(classes[1..]);
      FindClass(classes[1..], id)
  }

  function SuperOf(classes: seq<Class>, id: nat): Option<nat> {
    var c := FindClass(classes, id);
    if c.Some? then c.value.superClass else None
  }

  lemma {:induction false} FoundByItsId(classes: seq<Class>, i: nat)
    requires StrictlyAscending(ClassIds(classes)) && i < |classes|
    ensures FindClass(classes, classes[i].id) == Some(classes[i])
  {
    if i > 0 {
      assert ClassIds(classes)[0] < ClassIds(classes)[i];
      assert ClassIds(classes)[1..] == ClassIds(classes[1..]);
      FoundByItsId(classes[1..], i - 1);
    }
  }

  /** A walk up the hierarchy: each id's superclass is the next. */
  ghost predicate Walk(classes: seq<Class>, p: seq<nat>) {
    |p| > 0 && forall i :: 0 <= i < |p| - 1 ==> SuperOf(classes, p[i]) == Some(p[i + 1])
  }

  /** A walk from `id` to a class without a superclass. */
  ghost predicate Chain(classes: seq<Class>, id: nat, p: seq<nat>) {
    Walk(classes, p) && p[0] == id && SuperOf(classes, p[|p| - 1]) == None
  }

  lemma {:induction false} ChainsAreUnique(classes: seq<Class>, id: nat, p: seq<nat>, q: seq<nat>)
    requires Chain(classes, id, p) && Chain(classes, id, q)
    ensures |p| == |q|
    decreases |p|
  {
    assert |p| > 1 ==> SuperOf(classes, p[0]) == Some(p[1]);
    assert |q| > 1 ==> SuperOf(classes, q[0]) == Some(q[1]);
    if |p| > 1 {
      assert Chain(classes, p[1], p[1..]) && Chain(classes, p[1], q[1..]);
      ChainsAreUnique(classes, p[1], p[1..], q[1..]);
    }
  }

  ghost function ChainLength(classes: seq<Class>, id: nat): (n: nat)
    ensures forall p :: Chain(classes, id, p) ==> n == |p|
  {
    if exists p :: Chain(classes, id, p) then
      var p :| Chain(classes, id, p);
      (assert forall q :: Chain(classes, id, q) ==> |q| == |p| by {
         forall q | Chain(classes, id, q) ensures |q| == |p| { ChainsAreUnique(classes, id, p, q); }
       } |p|)
    else 0
  }

  ghost predicate HasChain(classes: seq<Class>, id: nat) {
    exists p :: Chain(classes, id, p)
  }

  lemma ChainLengthFalls(classes: seq<Class>, c: Class)
    requires StrictlyAscending(ClassIds(classes)) && c in classes && c.superClass.Some? && HasChain(classes, c.id)
    ensures ChainLength(classes, c.superClass.value) < ChainLength(classes, c.id)
  {
    var i :| 0 <= i < |classes| && classes[i] == c;
    FoundByItsId(classes, i);
    assert SuperOf(classes, c.id) == c.superClass;
    var p :| Chain(classes, c.id, p);
    assert |p| > 1 ==> SuperOf(classes, p[0]) == Some(p[1]);
    assert Chain(classes, c.superClass.value, p[1..]);
    assert |p[1..]| == |p| - 1;
  }

  /** If every class has a chain, the chain lengths are a rank. */
  lemma ChainsGiveARank(classes: seq<Class>)
    requires StrictlyAscending(ClassIds(classes))
    requires forall c :: c in classes && c.superClass.Some? ==> c.superClass.value in ClassIds(classes)
    requires forall c :: c in classes ==> HasChain(classes, c.id)
    ensures Acyclic(classes)
  {
    var ids := set i | 0 <= i < |classes| :: classes[i].id;
    var rank := map id | id in ids :: ChainLength(classes, id);
    forall c | c in classes && c.superClass.Some?
      ensures c.id in rank && c.superClass.value in rank && rank[c.superClass.value] < rank[c.id]
    {
      ChainLengthFalls(classes, c);
      var i :| 0 <= i < |classes| && classes[i] == c;
      var k :| 0 <= k < |ClassIds(classes)| && ClassIds(classes)[k] == c.superClass.value;
      assert classes[k].id in ids && classes[i].id in ids;
    }
    assert Ranks(classes, rank);
  }

  /** A rank falls along every walk, so an acyclic relation's walks never come back. */
  lemma {:induction false} RankFallsAlongWalks(classes: seq<Class>, rank: map<nat, nat>, p: seq<nat>, i: nat, j: nat)
    requires Ranks(classes, rank) && Walk(classes, p) && i < j < |p|
    ensures p[i] in rank && p[j] in rank && rank[p[j]] < rank[p[i]]
    decreases j
  {
    assert SuperOf(classes, p[j - 1]) == Some(p[j - 1 + 1]);
    if i < j - 1 {
      RankFallsAlongWalks(classes, rank, p, i, j - 1);
    }
  }

  lemma RevisitingIsACycle(classes: seq<Class>, p: seq<nat>, i: nat)
    requires Walk(classes, p) && i < |p| - 1 && p[i] == p[|p| - 1]
    ensures !Acyclic(classes)
  {
    if Acyclic(classes) {
      var rank :| Ranks(classes, rank);
      RankFallsAlongWalks(classes, rank, p, i, |p| - 1);
    }
  }

  /** The walk so far: `p` from `start` on, its ids in `visited`, and `cursor` what comes next. */
  ghost predicate WalkedTo(classes: seq<Class>, start: nat, p: seq<nat>, visited: set<nat>, cursor: Option<nat>) {
    && Walk(classes, p) && p[0] == start && (forall x :: x in visited <==> x in p)
    && (forall x :: x in visited ==> x in ClassIds(classes)) && cursor == SuperOf(classes, p[|p| - 1])
  }

  lemma WalkOn(classes: seq<Class>, start: nat, p: seq<nat>, visited: set<nat>, next: nat)
    requires WalkedTo(classes, start, p, visited, Some(next)) && next in ClassIds(classes)
    ensures Walk(classes, p + [next])
    ensures WalkedTo(classes, start, p + [next], visited + {next}, SuperOf(classes, next))
  {
  }

  /** One class's walk. Every id on it is a class of the model, so it cannot go on without repeating one. */
  method WalkUp(classes: seq<Class>, start: Class) returns (cycle: bool)
    requires StrictlyAscending(ClassIds(classes)) && start in classes
    requires forall c :: c in classes && c.superClass.Some? ==> c.superClass.value in ClassIds(classes)
    ensures cycle ==> !Acyclic(classes)
    ensures !cycle ==> HasChain(classes, start.id)
  {
    var visited: set<nat> := {start.id};
    ghost var p := [start.id];
    ghost var ids := set id | id in ClassIds(classes);
    ghost var k :| 0 <= k < |classes| && classes[k] == start;
    FoundByItsId(classes, k);
    assert ClassIds(classes)[k] == start.id;
    var cursor := start.superClass;
    while cursor.Some?
      invariant WalkedTo(classes, start.id, p, visited, cursor)
      decreases ids - visited, cursor.Some?
    {
      var next := cursor.value;
      NextIsAClass(classes, p[|p| - 1], next);
      WalkOn(classes, start.id, p, visited, next);
      if next in visited {
        ghost var i :| 0 <= i < |p| && p[i] == next;
        RevisitingIsACycle(classes, p + [next], i);
        return true;
      }
      visited := visited + {next};
      p := p + [next];
      cursor := SuperOf(classes, next);
    }
    assert Chain(classes, start.id, p);
    return false;
  }

  lemma NextIsAClass(classes: seq<Class>, id: nat, next: nat)
    requires SuperOf(classes, id) == Some(next)
    requires forall c :: c in classes && c.superClass.Some? ==> c.superClass.value in ClassIds(classes)
    ensures next in ClassIds(classes)
  {
    assert FindClass(classes, id).value in classes;
  }

  /** The first class whose walk comes back to a class it already visited. */
  method FindCycle(classes: seq<Class>) returns (found: Option<nat>)
    requires StrictlyAscending(ClassIds(classes))
    requires forall c :: c in classes && c.superClass.Some? ==> c.superClass.value in ClassIds(classes)
    ensures found.None? <==> Acyclic(classes)
  {
    for i := 0 to |classes|
      invariant forall k :: 0 <= k < i ==> HasChain(classes, classes[k].id)
    {
      var cycle := WalkUp(classes, classes[i]);
      if cycle {
        return Some(classes[i].id);
      }
    }
    ChainsGiveARank(classes);
    return None;
  }
}
