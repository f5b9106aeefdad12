/** The deep copy as the program runs it: the destination, the record of copied objects and the
    cache of the type search are updated in place. */
module DeepCopier {
  import opened Types
  import opened TypeSearch
  import opened DeepCopy
  import opened DeepCopyRuns

  class Copier {
    const source: Source
    var destination: set<string>
    var copied: set<string>
    var cache: map<Type, bool>

    constructor (source: Source, destination: set<string>)
      ensures this.source == source && Progress() == Cold(destination)
    {
      this.source := source;
      this.destination := destination;
      this.copied := {};
      this.cache := map[];
    }

    ghost function Progress(): (s: State)
      reads this
    {
      State(destination, copied, cache)
    }

    /** Copies the object and, if its type carries references, all that its value refers to. */
    method DeeplyCopy(ghost rank: string -> nat, order: Order, id: string) returns (ok: bool)
      requires Ranked(source, rank) && Orders(order)
      modifies this
      ensures Copying(ok, Progress()) == Copy(source, rank, order, old(Progress()), id)
      decreases rank(id) + 1, 0
    {
      if id in copied { return true; }
      if id !in source.objects { return false; }
      destination := destination + {id};
      var carries;
      carries, cache := RunQuery(source.names, cache, source.objects[id].kind);
      if carries.None? { return false; }
      if carries.value {
        var refs := Scan(source, id).refs;
        ok := DeeplyCopyAll(rank, rank(id), order, order(refs));
        if !ok || !Scan(source, id).ok { return false; }
      }
      copied := copied + {id};
      ok := true;
    }

    method DeeplyCopyAll(ghost rank: string -> nat, ghost bound: nat, order: Order, ids: seq<string>) returns (ok: bool)
      requires Ranked(source, rank) && Orders(order) && forall x :: x in ids ==> rank(x) < bound
      modifies this
      ensures Copying(ok, Progress()) == CopyAll(source, rank, bound, order, old(Progress()), ids)
      decreases bound, 1
    {
      ok := true;
      ghost var start := Progress();
      NoneYet(source, rank, bound, order, start, ids, ok);
      for i := 0 to |ids|
        invariant InTheEnd(source, rank, bound, order, Progress(), ids, i, ok)
            == CopyAll(source, rank, bound, order, start, ids)
      {
        OneMoreCopy(source, rank, bound, order, Progress(), ids, i, ok);
        var a := DeeplyCopy(rank, order, ids[i]);
        ok := ok && a;
      }
      NoneYet(source, rank, bound, order, Progress(), ids, ok);
    }
  }

  /** The outcome for all ids, when `ok` is that for the ids before `i`. */
  ghost function InTheEnd(
      src: Source, rank: string -> nat, bound: nat, order: Order, s: State, ids: seq<string>, i: nat, ok: bool)
    : (r: Copying)
    requires Ranked(src, rank) && Orders(order) && (forall x :: x in ids ==> rank(x) < bound) && i <= |ids|
  {
    var rest := CopyAll(src, rank, bound, order, s, ids[i..]);
    Copying(ok && rest.ok, rest.state)
  }

  lemma {:induction false} OneMoreCopy(
      src: Source, rank: string -> nat, bound: nat, order: Order, s: State, ids: seq<string>, i: nat, ok: bool)
    requires Ranked(src, rank) && Orders(order) && (forall x :: x in ids ==> rank(x) < bound) && i < |ids|
    ensures var a := Copy(src, rank, order, s, ids[i]);
            InTheEnd(src, rank, bound, order, s, ids, i, ok)
                == InTheEnd(src, rank, bound, order, a.state, ids, i + 1, ok && a.ok)
  {
    assert ids[i..][0] == ids[i] && ids[i..][1..] == ids[i + 1..];
  }

  lemma {:induction false} NoneYet(
      src: Source, rank: string -> nat, bound: nat, order: Order, s: State, ids: seq<string>, ok: bool)
    requires Ranked(src, rank) && Orders(order) && forall x :: x in ids ==> rank(x) < bound
    ensures InTheEnd(src, rank, bound, order, s, ids, 0, true) == CopyAll(src, rank, bound, order, s, ids)
    ensures InTheEnd(src, rank, bound, order, s, ids, |ids|, ok) == Copying(ok, s)
  {
    assert ids[0..] == ids;
  }
}
