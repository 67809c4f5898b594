/**
 * The table of hazard slots and an `llptr` on top of it, each operation run to completion: on any
 * table that stalled readers may have left, publications of theirs included.
 */
module HazardTable {
  import opened HazardMachine

  /** `hazard_t::FLAG` is the lowest bit of an owner word; owners are even. */
  predicate IsOwner(o: nat) { o != 0 && o % 2 == 0 }

  function Masked(o: nat): nat { o - o % 2 }

  /** The number of slots among the first `n` that publish the value `v` for the owner `o`. */
  function Matches(owner: seq<nat>, value: seq<nat>, o: nat, v: nat, n: nat): (c: nat)
    requires n <= |owner| && n <= |value|
    ensures c <= n
  {
    if n == 0 then 0
    else Matches(owner, value, o, v, n - 1) + if owner[n - 1] == o && value[n - 1] == v then 1 else 0
  }

  /** The values once the first `limit` of the matching slots were granted a reference. */
  function Granted(owner: seq<nat>, value: seq<nat>, o: nat, v: nat, limit: nat): (r: seq<nat>)
    requires |owner| == |value|
    ensures |r| == |value|
  {
    seq(|value|, i requires 0 <= i < |value| =>
      if owner[i] == o && value[i] == v && Matches(owner, value, o, v, i) < limit then 0 else value[i])
  }

  /** Those slots, by themselves. */
  function Matching(owner: seq<nat>, value: seq<nat>, o: nat, v: nat, n: nat): set<nat>
    requires n <= |owner| && n <= |value|
  {
    set i: nat | i < n && owner[i] == o && value[i] == v
  }

  lemma {:induction false} MatchesCounts(owner: seq<nat>, value: seq<nat>, o: nat, v: nat, n: nat)
    requires n <= |owner| && n <= |value|
    ensures Matches(owner, value, o, v, n) == |Matching(owner, value, o, v, n)|
  {
    if n > 0 {
      MatchesCounts(owner, value, o, v, n - 1);
      var more := if owner[n - 1] == o && value[n - 1] == v then {n - 1} else {};
      assert Matching(owner, value, o, v, n) == Matching(owner, value, o, v, n - 1) + more;
    } else {
      assert Matching(owner, value, o, v, n) == {};
    }
  }

  lemma {:induction false} MatchesUpTo(owner: seq<nat>, value: seq<nat>, o: nat, v: nat, i: nat, n: nat)
    requires i <= n <= |owner| && n <= |value|
    ensures Matches(owner, value, o, v, i) <= Matches(owner, value, o, v, n)
    decreases n - i
  {
    if i < n {
      MatchesUpTo(owner, value, o, v, i, n - 1);
    }
  }

  /** Validation of an owner throws `invalid_argument`. */
  datatype Owner = Rejected | Accepted(o: nat)

  function ValidateOwner(p: nat): (r: Owner)
    ensures r.Accepted? ==> r.o == p && IsOwner(p)
  {
    if p == 0 || p % 2 != 0 then Rejected else Accepted(p)
  }

  /**
   * What validation is for: exactly the accepted owners are got back from their owner word by masking,
   * whether a writer has set the flag bit or not, and no owner is mistaken for another one, or for the
   * flagged word of one.
   */
  lemma OwnersAreToldApart(p: nat, q: nat)
    ensures ValidateOwner(p).Accepted? <==> p != 0 && Masked(p) == Masked(p + 1) == p
    ensures ValidateOwner(p).Accepted? ==> ValidateOwner(p + 1).Rejected?
    ensures ValidateOwner(p).Accepted? && ValidateOwner(q).Accepted? ==>
      p != q + 1 && (Masked(p + 1) == Masked(q + 1) <==> p == q)
  {
    if p % 2 == 0 {
      assert (p + 1) % 2 == 1;
    } else {
      assert (p + 1) % 2 == 0;
    }
    if q % 2 == 0 {
      assert (q + 1) % 2 == 1;
    }
  }

  class Table {
    var owner: seq<nat>
    var value: seq<nat>
    var next: nat  // hz_idx, an unsigned short

    ghost predicate Valid()
      reads this
    {
      |owner| == |value| == SLOTS && next < 65536
    }

    /** No writer has stalled while it holds the flag bit of a slot of `o`. */
    ghost predicate Unflagged(o: nat)
      reads this
    {
      forall i :: 0 <= i < |owner| ==> owner[i] != o + 1
    }

    constructor ()
      ensures Valid() && next == 0
      ensures owner == seq(SLOTS, i => 0) && value == seq(SLOTS, i => 0)
    {
      owner, value, next := seq(SLOTS, i => 0), seq(SLOTS, i => 0), 0;
    }

    /** `mark`: zeroes the value of a slot that publishes `v` for `o`; true when it did. */
    method Mark(i: nat, o: nat, v: nat) returns (r: bool)
      requires Valid() && i < SLOTS && IsOwner(o) && v != 0 && Unflagged(o)
      modifies this`owner, this`value
      ensures Valid() && owner == old(owner) && r == (old(owner[i]) == o && old(value[i]) == v)
      ensures value == if r then old(value)[i := 0] else old(value)
    {
      var expected := o;
      var again := true;
      while again
        invariant Valid() && owner == old(owner) && value == old(value)
        invariant !again ==> !(owner[i] == o && value[i] == v)
        decreases again
      {
        if value[i] != v {
          break;
        }
        expected := o;
        if owner[i] == expected {
          owner := owner[i := o + 1];
          r := value[i] == v;
          if r {
            value := value[i := 0];
          }
          owner := owner[i := Masked(owner[i])];
          return;
        }
        expected := owner[i];
        again := Masked(expected) == o;
      }
      r := false;
    }

    /** `hazard_grant_n`: grants the first `nrefs` of the slots that publish `v` for `o`. */
    method GrantN(o: nat, v: nat, nrefs: nat) returns (count: nat)
      requires Valid() && IsOwner(o) && v != 0 && Unflagged(o)
      modifies this`owner, this`value
      ensures Valid() && owner == old(owner)
      ensures value == Granted(old(owner), old(value), o, v, nrefs)
      ensures forall i :: 0 <= i < SLOTS ==>
        value[i] ==
          if old(owner[i]) == o && old(value[i]) == v && |Matching(old(owner), old(value), o, v, i)| < nrefs then 0
          else old(value[i])
      ensures var m := |Matching(old(owner), old(value), o, v, SLOTS)|; count == if m < nrefs then m else nrefs
    {
      count := 0;
      var i := 0;
      while i < SLOTS
        invariant Valid() && i <= SLOTS && owner == old(owner)
        invariant count == Matches(old(owner), old(value), o, v, i) && count <= nrefs
        invariant forall k :: 0 <= k < i ==> value[k] == Granted(old(owner), old(value), o, v, nrefs)[k]
        invariant forall k :: i <= k < SLOTS ==> value[k] == old(value)[k]
      {
        if count == nrefs {
          break;
        }
        var marked := Mark(i, o, v);
        if marked {
          count := count + 1;
        }
        i := i + 1;
      }
      MatchesUpTo(owner, old(value), o, v, i, SLOTS);
      forall k | i <= k < SLOTS
        ensures value[k] == Granted(old(owner), old(value), o, v, nrefs)[k]
      {
        MatchesUpTo(owner, old(value), o, v, i, k);
      }
      assert value == Granted(old(owner), old(value), o, v, nrefs);
      forall k | 0 <= k <= SLOTS
        ensures Matches(old(owner), old(value), o, v, k) == |Matching(old(owner), old(value), o, v, k)|
      {
        MatchesCounts(old(owner), old(value), o, v, k);
      }
    }

    /** `hazard_grant`: grants every slot that publishes `v` for `o`. */
    method GrantAll(o: nat, v: nat) returns (count: nat)
      requires Valid() && IsOwner(o) && v != 0 && Unflagged(o)
      modifies this`owner, this`value
      ensures Valid() && owner == old(owner)
      ensures value == Granted(old(owner), old(value), o, v, SLOTS)
      ensures forall i :: 0 <= i < SLOTS ==>
        value[i] == if old(owner[i]) == o && old(value[i]) == v then 0 else old(value[i])
      ensures count == Matches(old(owner), old(value), o, v, SLOTS) == |Matching(old(owner), old(value), o, v, SLOTS)|
    {
      count := 0;
      var i := 0;
      while i < SLOTS
        invariant Valid() && i <= SLOTS && owner == old(owner)
        invariant count == Matches(old(owner), old(value), o, v, i)
        invariant forall k :: 0 <= k < i ==> value[k] == Granted(old(owner), old(value), o, v, SLOTS)[k]
        invariant forall k :: i <= k < SLOTS ==> value[k] == old(value)[k]
      {
        var marked := Mark(i, o, v);
        if marked {
          count := count + 1;
        }
        i := i + 1;
      }
      assert value == Granted(old(owner), old(value), o, v, SLOTS);
      MatchesCounts(owner, old(value), o, v, SLOTS);
    }

    /** `allocate_hazard`: claims the first free slot from the rotating index on, around the table. */
    method Allocate(o: nat) returns (i: nat)
      requires Valid() && IsOwner(o) && exists k: nat :: k < SLOTS && owner[k] == 0
      modifies this`owner, this`next
      ensures Valid() && i < SLOTS && old(owner[i]) == 0 && owner == old(owner)[i := o]
      ensures next == (old(next) + 1) % 65536
      ensures var idx := old(next) % SLOTS;
        if idx <= i then forall k :: idx <= k < i ==> old(owner[k]) != 0
        else (forall k :: idx <= k < SLOTS ==> old(owner[k]) != 0) && (forall k :: 0 <= k < i ==> old(owner[k]) != 0)
    {
      var idx := next % SLOTS;
      next := (next + 1) % 65536;
      ghost var free: nat :| free < SLOTS && owner[free] == 0;
      i := idx;
      ghost var round := 0;
      while true
        invariant Valid() && i <= SLOTS && owner == old(owner) && next == (old(next) + 1) % 65536 && round <= 1
        invariant round == 0 ==> idx <= i && forall k :: idx <= k < i ==> owner[k] != 0
        invariant round == 1 ==> i <= free < idx && forall k :: (idx <= k < SLOTS || 0 <= k < i) ==> owner[k] != 0
        decreases 1 - round, SLOTS - i
      {
        if i == SLOTS {
          i := 0;
          round := 1;
        } else if owner[i] == 0 {
          owner := owner[i := o];
          return;
        } else {
          i := i + 1;
        }
      }
    }

    /** The destructor of `basic_hazard`. */
    method Free(i: nat)
      requires Valid() && i < SLOTS && value[i] == 0
      modifies this`owner
      ensures Valid() && owner == old(owner)[i := old(owner[i]) % 2]
    {
      owner := owner[i := owner[i] % 2];
    }
  }

  /** The reference counts of the objects, keyed by address. */
  class Counts {
    var count: map<nat, nat>

    constructor ()
      ensures count == map[]
    {
      count := map[];
    }

    method Acquire(p: nat, n: nat)
      requires p in count
      modifies this
      ensures count == old(count)[p := old(count)[p] + n]
    {
      count := count[p := count[p] + n];
    }

    method Release(p: nat, n: nat)
      requires p in count && n <= count[p]
      modifies this
      ensures count == old(count)[p := old(count)[p] - n]
    {
      count := count[p := count[p] - n];
    }
  }

  /** `llptr`: an atomic pointer that owns one reference on what it points at. */
  class Pointer {
    const id: nat     // its address, the owner of its hazards
    const table: Table
    const refs: Counts
    var word: Word

    ghost predicate Valid()
      reads this, table, refs
    {
      && table.Valid() && IsOwner(id) && table.Unflagged(id) && (word.ptr != 0 ==> word.ptr in refs.count)
    }

    /** Readers that stalled between publishing `p` and checking: each of them will be given a reference. */
    ghost function Readers(p: nat): nat
      requires table.Valid()
      reads this, table
    {
      Matches(table.owner, table.value, id, p, SLOTS)
    }

    ghost function Served(p: nat): seq<nat>
      requires table.Valid()
      reads this, table
    {
      Granted(table.owner, table.value, id, p, SLOTS)
    }

    constructor (id: nat, table: Table, refs: Counts)
      requires IsOwner(id) && table.Valid() && table.Unflagged(id)
      ensures this.id == id && this.table == table && this.refs == refs && word == Word(0, 0) && Valid()
    {
      this.id, this.table, this.refs, word := id, table, refs, Word(0, 0);
    }

    /**
     * `grant`: of the `nrefs` references put at its disposal, and as many more as it takes, every
     * stalled reader of `p` gets one; what is left is released.
     */
    method Grant(p: nat, nrefs: nat)
      requires Valid() && (p != 0 ==> p in refs.count && nrefs <= refs.count[p])
      modifies table, refs
      ensures Valid() && table.owner == old(table.owner) && table.next == old(table.next)
      ensures p == 0 ==> refs.count == old(refs.count) && table.value == old(table.value)
      ensures p != 0 ==> table.value == old(Served(p))
      ensures p != 0 ==> refs.count == old(refs.count)[p := old(refs.count[p]) - nrefs + old(Readers(p))]
    {
      if p == 0 {
        return;
      }
      var left := nrefs;
      if left < SLOTS {
        refs.Acquire(p, SLOTS - left);
        left := SLOTS;
      }
      var granted := table.GrantAll(id, p);
      left := left - granted;
      if left > 0 {
        refs.Release(p, left);
      }
    }

    /** `do_hazard`: publishes `p` in slot `i`, looks again, and acquires a reference if the pointer is still there. */
    method DoHazard(i: nat, p: nat) returns (rv: nat)
      requires Valid() && i < SLOTS && table.owner[i] == id && table.value[i] == 0
      modifies table`value, refs
      ensures Valid() && table.value == old(table.value)
      ensures if p == 0 || p != word.ptr then rv == 0 && refs.count == old(refs.count)
              else rv == 1 && refs.count == old(refs.count)[p := old(refs.count[p]) + 1]
    {
      if p == 0 {
        return 0;
      }
      rv := 0;
      table.value := table.value[i := p];
      if word.ptr == p {
        refs.Acquire(p, 1);
        rv := rv + 1;
      }
      var was := table.value[i];
      table.value := table.value[i := 0];
      if was == 0 {
        // A writer left a grant: not without interference.
        assert false;
      }
    }

    /** `load`: the word, with one more reference on what it points at. */
    method Load() returns (v: Word)
      requires Valid() && exists k: nat :: k < SLOTS && table.owner[k] == 0
      requires forall k :: 0 <= k < SLOTS && table.owner[k] == 0 ==> table.value[k] == 0
      modifies table, refs
      ensures Valid() && v == word && table.owner == old(table.owner) && table.value == old(table.value)
      ensures refs.count == if v.ptr == 0 then old(refs.count) else old(refs.count)[v.ptr := old(refs.count[v.ptr]) + 1]
    {
      v := word;
      if v.ptr == 0 {
        return;
      }
      var i := table.Allocate(id);
      var acq := DoHazard(i, v.ptr);
      if acq == 0 && v.ptr != 0 {
        // Another round: not without interference.
        assert false;
      }
      if acq > 1 {
        assert false;
      }
      table.Free(i);
      assert table.owner == old(table.owner);
    }

    /** `store`: the handle on `v.ptr` goes into the pointer, the reference on the old object to its readers. */
    method Store(v: Word)
      requires Valid() && (v.ptr != 0 ==> v.ptr in refs.count)
      requires word.ptr != 0 ==> 1 <= refs.count[word.ptr]
      modifies this`word, table, refs
      ensures Valid() && word == v && table.owner == old(table.owner)
      ensures var p := old(word).ptr;
        if p == 0 then refs.count == old(refs.count) && table.value == old(table.value)
        else
          && refs.count == old(refs.count)[p := old(refs.count[p]) - 1 + old(Readers(p))]
          && table.value == old(Served(p))
    {
      var p := word.ptr;
      word := v;
      if p != 0 {
        Grant(p, 1);
      }
    }

    /** `exchange`: as `store`, but the reference on the old object is returned to the caller. */
    method Exchange(v: Word) returns (was: Word)
      requires Valid() && (v.ptr != 0 ==> v.ptr in refs.count)
      modifies this`word, table, refs
      ensures Valid() && word == v && was == old(word) && table.owner == old(table.owner)
      ensures if was.ptr == 0 then refs.count == old(refs.count) && table.value == old(table.value)
              else refs.count == old(refs.count)[was.ptr := old(refs.count[was.ptr]) + old(Readers(was.ptr))]
                   && table.value == old(Served(was.ptr))
    {
      was := word;
      word := v;
      Grant(was.ptr, 0);
    }

    /**
     * `compare_exchange_strong` with handles: on success the handle on `desired.ptr` goes into the
     * pointer and the reference on the old object to its readers; on failure the caller's handle on
     * `expected.ptr` is swapped for one on what the pointer holds, unless that is the same object.
     */
    method CompareExchange(expected: Word, desired: Word) returns (ok: bool, found: Word)
      requires Valid() && (desired.ptr != 0 ==> desired.ptr in refs.count && 1 <= refs.count[desired.ptr])
      requires expected.ptr != 0 ==> expected.ptr in refs.count && 1 <= refs.count[expected.ptr]
      requires expected.ptr != 0 && expected.ptr == desired.ptr ==> 2 <= refs.count[expected.ptr]
      requires exists k: nat :: k < SLOTS && table.owner[k] == 0
      requires forall k :: 0 <= k < SLOTS && table.owner[k] == 0 ==> table.value[k] == 0
      modifies this`word, table, refs
      ensures Valid() && ok == (old(word) == expected) && found == old(word) && table.owner == old(table.owner)
      ensures word == if ok then desired else old(word)
      ensures ok && expected.ptr != 0 ==>
                refs.count == old(refs.count)[expected.ptr :=
                  old(refs.count[expected.ptr]) - 1 + old(Readers(expected.ptr))]
                && table.value == old(Served(expected.ptr))
      ensures (ok ==> expected.ptr == 0) ==> table.value == old(table.value)
      ensures ok && expected.ptr == 0 ==> refs.count == old(refs.count)
      ensures !ok ==>
                var held := if found.ptr == expected.ptr then old(refs.count)
                            else Dropped(Taken(old(refs.count), found.ptr), expected.ptr);
                refs.count == Dropped(held, desired.ptr)
    {
      if word == expected {
        ok, found := true, word;
        word := desired;
        Grant(expected.ptr, 1);
        return;
      }
      ok, found := false, word;
      if found.ptr != expected.ptr {
        if found.ptr != 0 {
          found := Load();
        }
        if expected.ptr != 0 {
          refs.Release(expected.ptr, 1);
        }
      }
      if desired.ptr != 0 {
        refs.Release(desired.ptr, 1);
      }
    }
  }

  function Taken(count: map<nat, nat>, p: nat): map<nat, nat> {
    if p != 0 && p in count then count[p := count[p] + 1] else count
  }

  function Dropped(count: map<nat, nat>, p: nat): map<nat, nat> {
    if p != 0 && p in count && 0 < count[p] then count[p := count[p] - 1] else count
  }
}
