/** Threads as seen by a mutex and one condition variable. */
module Threads {
  type Tid = nat

  /** Who holds a mutex. */
  datatype Owner = Nobody | Thread(t: Tid)

  function At<Pc(==)>(pc: map<Tid, Pc>, p: Pc): set<Tid> {
    set t | t in pc && pc[t] == p
  }

  /** How many threads are at p. */
  function Count<Pc(==)>(pc: map<Tid, Pc>, p: Pc): nat { |At(pc, p)| }

  lemma CountOne<Pc>(pc: map<Tid, Pc>, t: Tid)
    requires t in pc
    ensures Count(pc, pc[t]) > 0
  {
    assert t in At(pc, pc[t]);
  }

  lemma CountNone<Pc>(pc: map<Tid, Pc>, p: Pc)
    ensures Count(pc, p) == 0 <==> forall t | t in pc :: pc[t] != p
  {
    if Count(pc, p) == 0 {
      assert forall t | t in pc :: t !in At(pc, p);
    } else {
      var t :| t in At(pc, p);
    }
  }

  lemma MoveCount<Pc>(pc: map<Tid, Pc>, t: Tid, q: Pc, p: Pc)
    requires t in pc
    ensures Count(pc[t := q], p) == Count(pc, p) + (if p == q then 1 else 0) - (if p == pc[t] then 1 else 0)
  {
    var before, after := At(pc, p), At(pc[t := q], p);
    assert t in before <==> p == pc[t];
    if p == q {
      assert after == before + {t};
    } else {
      assert after == before - {t};
    }
  }

  /** Moving one thread changes two counts by one. */
  lemma MoveOne<Pc(!new)>(pc: map<Tid, Pc>, t: Tid, q: Pc)
    requires t in pc
    ensures forall p :: Count(pc[t := q], p) == Count(pc, p) + (if p == q then 1 else 0) - (if p == pc[t] then 1 else 0)
  {
    hide Count;
    forall p
      ensures Count(pc[t := q], p) == Count(pc, p) + (if p == q then 1 else 0) - (if p == pc[t] then 1 else 0)
    {
      MoveCount(pc, t, q, p);
    }
  }
}
