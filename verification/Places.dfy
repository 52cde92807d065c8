/** The last of several places entered into one slot of a hash table. */
module Places {
  /** Of the places qs, entered one after the other, now is the last in slot h; was, if none is. */
  ghost predicate LastIn(qs: seq<nat>, slot: nat -> nat, h: nat, was: int, now: int) {
    || (now == was && NoneFrom(qs, slot, h, 0))
    || exists i :: 0 <= i < |qs| && qs[i] == now && slot(qs[i]) == h && NoneFrom(qs, slot, h, i + 1)
  }

  ghost predicate NoneFrom(qs: seq<nat>, slot: nat -> nat, h: nat, from: nat) {
    forall j :: from <= j < |qs| ==> slot(qs[j]) != h
  }

  lemma NoneYet(slot: nat -> nat, h: nat, was: int)
    ensures LastIn([], slot, h, was, was)
  {
  }

  lemma LastMore(qs: seq<nat>, slot: nat -> nat, h: nat, was: int, now: int, q: nat)
    requires LastIn(qs, slot, h, was, now)
    ensures LastIn(qs + [q], slot, h, was, if slot(q) == h then q else now)
  {
    var all := qs + [q];
    if slot(q) == h {
      assert all[|qs|] == q && NoneFrom(all, slot, h, |qs| + 1);
    } else if i :| 0 <= i < |qs| && qs[i] == now && slot(qs[i]) == h && NoneFrom(qs, slot, h, i + 1) {
      assert all[i] == now && NoneFrom(all, slot, h, i + 1);
    } else {
      assert NoneFrom(all, slot, h, 0);
    }
  }
}
