/**
 * What a thread does that no other one interferes with, from wherever the others have left it: how a
 * `load` and a compare-exchange end, and that a grant serves the readers that `HazardTable` says.
 */
module HazardAlone {
  import opened SeqSum
  import opened HazardMachine
  import opened HazardInvariant
  import opened HazardConservation
  import opened HazardTheorems
  import opened HazardTable

  /** The same action `n` times in a row. */
  ghost predicate Repeats(s: State, a: Action, n: nat, s': State)
    decreases n
  {
    if n == 0 then s' == s else exists m :: Does(s, a, m) && Repeats(m, a, n - 1, s')
  }

  ghost predicate Gets(s: State, a: Action, s': State) { exists n: nat :: Repeats(s, a, n, s') }

  lemma Then(s: State, a: Action, s1: State, s': State)
    requires Does(s, a, s1) && (s1 == s' || Gets(s1, a, s'))
    ensures Gets(s, a, s')
  {
    if s1 == s' {
      assert Repeats(s1, a, 0, s');
    }
    var n: nat :| Repeats(s1, a, n, s');
    assert Repeats(s, a, n + 1, s');
  }

  function Become(s: State, t: nat, pc: PC): State
    requires t < |s.threads|
  {
    s.(threads := s.threads[t := pc])
  }

  function Write(s: State, i: nat, h: Slot): State
    requires i < |s.slots|
  {
    s.(slots := s.slots[i := h])
  }

  /** Thread `t` is a reader at stage `at`, in slot `i`. */
  predicate ReaderAt(s: State, t: nat, at: ReadStage, i: nat) {
    && s.WellFormed() && t < |s.threads| && s.threads[t].Reader? && s.threads[t].at == at && InRange(s, s.threads[t])
    && i < SLOTS && (!at.Read? && !at.Try? && !at.Alloc? && !at.Done? ==> s.threads[t].s == i)
  }

  // ---------------------------------------------------------------- how a reader ends

  /** The reader of slot `i` has returned the pointer it had in hand. */
  function Returned(s: State, t: nat, i: nat): State
    requires t < |s.threads| && s.threads[t].Reader? && i < |s.slots|
  {
    var pc, h := s.threads[t], s.slots[i];
    Become(Write(s, i, h.(key := 0, value := 0, grant := 0)), t, Idle)
      .(handles := Give(GiveArgs(s.handles, pc.c.op, false), pc.v.ptr))
  }

  lemma Returns(s: State, t: nat, i: nat)
    requires ReaderAt(s, t, Done, i)
    ensures Gets(s, Step(t, i, false), Become(s, t, Idle).(handles := Give(s.handles, s.threads[t].v.ptr)))
  {
    var end := Become(s, t, Idle).(handles := Give(s.handles, s.threads[t].v.ptr));
    assert Does(s, Step(t, i, false), end);
    Then(s, Step(t, i, false), end, end);
  }

  lemma Frees(s: State, t: nat, i: nat)
    requires ReaderAt(s, t, Free, i) && s.slots[i].value == 0 && s.slots[i].grant == 0
    ensures Gets(s, Step(t, i, false), Returned(s, t, i))
  {
    var pc, h := s.threads[t], s.slots[i];
    var given := GiveArgs(s.handles, pc.c.op, false);
    var s1 := Become(Write(s, i, h.(key := 0)), t, pc.(at := Done)).(handles := given);
    assert Does(s, Step(t, i, false), s1);
    Returns(s1, t, i);
    assert h.(key := 0, value := 0, grant := 0) == h.(key := 0);
    assert s1.threads[t := Idle] == s.threads[t := Idle];
    assert Become(s1, t, Idle).(handles := Give(given, pc.v.ptr)) == Returned(s, t, i);
    Then(s, Step(t, i, false), s1, Returned(s, t, i));
  }

  /** `d` references on `p` more. */
  function Counted(s: State, p: nat, d: int): State
    requires 0 <= s.Count(p) + d
  {
    if d == 0 then s else s.(counts := s.counts[p := s.Count(p) + d])
  }

  /** A reader with a reference keeps one, releases the other if it has two, and returns. */
  lemma Decides(s: State, t: nat, i: nat)
    requires ReaderAt(s, t, Decide, i) && s.slots[i].value == 0 && s.slots[i].grant == 0
    requires var pc := s.threads[t]; 1 <= pc.acq <= 2 && pc.acq <= s.Count(pc.v.ptr) + 1
    ensures var pc := s.threads[t];
      Gets(s, Step(t, i, false), Returned(Counted(s, pc.v.ptr, 1 - pc.acq), t, i))
  {
    var pc := s.threads[t];
    var s1 := Become(Counted(s, pc.v.ptr, 1 - pc.acq), t, pc.(at := Free));
    assert Does(s, Step(t, i, false), s1);
    Frees(s1, t, i);
    var end := Returned(Counted(s, pc.v.ptr, 1 - pc.acq), t, i);
    assert s1.threads[t := Idle] == s.threads[t := Idle];
    assert Returned(s1, t, i) == end;
    Then(s, Step(t, i, false), s1, end);
  }

  /** Whether a writer has granted a reference to the publication in slot `i`. */
  function GrantIn(s: State, i: nat): nat
    requires i < |s.slots|
  {
    if s.slots[i].value == 0 then 1 else 0
  }

  /** It does not matter to what is returned whether the slot was emptied before. */
  lemma EmptiedAlike(s: State, t: nat, i: nat, pc: PC, d: int)
    requires t < |s.threads| && s.threads[t].Reader? && i < |s.slots| && pc.Reader?
    requires pc.c == s.threads[t].c && pc.v == s.threads[t].v && 0 <= s.Count(pc.v.ptr) + d
    ensures Returned(Counted(Become(Write(s, i, s.slots[i].(value := 0, grant := 0)), t, pc), pc.v.ptr, d), t, i)
         == Returned(Counted(s, pc.v.ptr, d), t, i)
  {
    var h := s.slots[i].(value := 0, grant := 0);
    assert s.threads[t := pc][t := Idle] == s.threads[t := Idle];
    assert s.slots[i := h][i := h.(key := 0)] == s.slots[i := h.(key := 0)];
    var m := Become(Write(s, i, h), t, pc);
    assert m.Count(pc.v.ptr) == s.Count(pc.v.ptr);
    assert Counted(m, pc.v.ptr, d) == m.(counts := Counted(s, pc.v.ptr, d).counts);
  }

  /** The state of a reader that has emptied its slot, and counts the reference it was granted. */
  function Emptied(s: State, t: nat, i: nat): State
    requires t < |s.threads| && s.threads[t].Reader? && i < |s.slots|
  {
    var pc := s.threads[t];
    Become(Write(s, i, s.slots[i].(value := 0, grant := 0)), t, pc.(at := Decide, acq := pc.acq + GrantIn(s, i)))
  }

  lemma Empties(s: State, t: nat, i: nat)
    requires ReaderAt(s, t, Unpublish, i)
    ensures Does(s, Step(t, i, false), Emptied(s, t, i)) && ReaderAt(Emptied(s, t, i), t, Decide, i)
    ensures Emptied(s, t, i).Count(s.threads[t].v.ptr) == s.Count(s.threads[t].v.ptr)
  {}

  /** A reader that has looked again counts the reference it got, and the one it was granted. */
  lemma Unpublishes(s: State, t: nat, i: nat)
    requires ReaderAt(s, t, Unpublish, i)
    requires var pc := s.threads[t]; 1 <= pc.acq + GrantIn(s, i) <= 2 && pc.acq + GrantIn(s, i) <= s.Count(pc.v.ptr) + 1
    ensures var pc := s.threads[t];
      Gets(s, Step(t, i, false), Returned(Counted(s, pc.v.ptr, 1 - pc.acq - GrantIn(s, i)), t, i))
  {
    Empties(s, t, i);
    Decides(Emptied(s, t, i), t, i);
    var p, d := s.threads[t].v.ptr, 1 - s.threads[t].acq - GrantIn(s, i);
    EmptiedAlike(s, t, i, Emptied(s, t, i).threads[t], d);
    Then(s, Step(t, i, false), Emptied(s, t, i), Returned(Counted(s, p, d), t, i));
  }

  lemma ReturnsAlike(s: State, t: nat, i: nat, pc: PC, d: int)
    requires t < |s.threads| && s.threads[t].Reader? && i < |s.slots| && pc.Reader?
    requires pc.c == s.threads[t].c && pc.v == s.threads[t].v && 0 <= s.Count(pc.v.ptr) + d
    ensures Returned(Counted(Become(s, t, pc), pc.v.ptr, d), t, i) == Returned(Counted(s, pc.v.ptr, d), t, i)
  {
    assert s.threads[t := pc][t := Idle] == s.threads[t := Idle];
  }

  lemma TakesReference(s: State, t: nat, i: nat)
    requires ReaderAt(s, t, Acquire, i)
    ensures var pc := s.threads[t];
      var s1 := Become(Counted(s, pc.v.ptr, 1), t, pc.(at := Unpublish, acq := 1));
      Does(s, Step(t, i, false), s1) && ReaderAt(s1, t, Unpublish, i) && s1.Count(pc.v.ptr) == s.Count(pc.v.ptr) + 1
  {}

  /** A reader that finds its pointer in the cell again acquires a reference, and releases the one it was granted. */
  lemma Acquires(s: State, t: nat, i: nat)
    requires ReaderAt(s, t, Acquire, i)
    ensures var p := s.threads[t].v.ptr;
      Gets(s, Step(t, i, false), Returned(Counted(Counted(s, p, 1), p, 0 - GrantIn(s, i)), t, i))
  {
    var pc := s.threads[t];
    var m := Counted(s, pc.v.ptr, 1);
    var s1 := Become(m, t, pc.(at := Unpublish, acq := 1));
    TakesReference(s, t, i);
    Unpublishes(s1, t, i);
    ReturnsAlike(m, t, i, pc.(at := Unpublish, acq := 1), 0 - GrantIn(s, i));
    Then(s, Step(t, i, false), s1, Returned(Counted(m, pc.v.ptr, 0 - GrantIn(s, i)), t, i));
  }

  /**
   * What a reader with a publication in slot `i` does: with its pointer still in the cell it acquires a
   * reference; otherwise it returns the one it was granted.
   */
  lemma LooksAgain(s: State, t: nat, i: nat)
    requires ReaderAt(s, t, Check, i) && (s.Cur(s.threads[t].c.o).ptr == s.threads[t].v.ptr || GrantIn(s, i) == 1)
    ensures var p := s.threads[t].v.ptr;
      Gets(s, Step(t, i, false),
           Returned(if s.Cur(s.threads[t].c.o).ptr == p then Counted(Counted(s, p, 1), p, 0 - GrantIn(s, i)) else s,
                    t, i))
  {
    var pc := s.threads[t];
    var p := pc.v.ptr;
    if s.Cur(pc.c.o).ptr == p {
      SeesItAgain(s, t, i);
    } else {
      CollectsGrant(s, t, i);
    }
  }

  lemma SeesItAgain(s: State, t: nat, i: nat)
    requires ReaderAt(s, t, Check, i) && s.Cur(s.threads[t].c.o).ptr == s.threads[t].v.ptr
    ensures var p := s.threads[t].v.ptr;
      Gets(s, Step(t, i, false), Returned(Counted(Counted(s, p, 1), p, 0 - GrantIn(s, i)), t, i))
  {
    var next := s.threads[t].(at := Acquire);
    Checks(s, t, i);
    Acquires(Become(s, t, next), t, i);
    ReturnsAsAcquired(s, t, i, next, 0 - GrantIn(s, i));
    Then(s, Step(t, i, false), Become(s, t, next),
         Returned(Counted(Counted(s, next.v.ptr, 1), next.v.ptr, 0 - GrantIn(s, i)), t, i));
  }

  lemma Checks(s: State, t: nat, i: nat)
    requires ReaderAt(s, t, Check, i) && s.Cur(s.threads[t].c.o).ptr == s.threads[t].v.ptr
    ensures var s1 := Become(s, t, s.threads[t].(at := Acquire));
      Does(s, Step(t, i, false), s1) && ReaderAt(s1, t, Acquire, i)
  {}

  lemma ReturnsAsAcquired(s: State, t: nat, i: nat, pc: PC, d: int)
    requires t < |s.threads| && s.threads[t].Reader? && i < |s.slots| && pc.Reader?
    requires pc.c == s.threads[t].c && pc.v == s.threads[t].v && 0 <= s.Count(pc.v.ptr) + 1 + d
    ensures Returned(Counted(Counted(Become(s, t, pc), pc.v.ptr, 1), pc.v.ptr, d), t, i)
         == Returned(Counted(Counted(s, pc.v.ptr, 1), pc.v.ptr, d), t, i)
  {
    var m := Counted(s, pc.v.ptr, 1);
    assert Counted(Become(s, t, pc), pc.v.ptr, 1) == Become(m, t, pc);
    ReturnsAlike(m, t, i, pc, d);
  }

  lemma CollectsGrant(s: State, t: nat, i: nat)
    requires ReaderAt(s, t, Check, i) && s.Cur(s.threads[t].c.o).ptr != s.threads[t].v.ptr && GrantIn(s, i) == 1
    ensures Gets(s, Step(t, i, false), Returned(s, t, i))
  {
    var s1 := Become(s, t, s.threads[t].(at := Unpublish, acq := 0));
    assert Does(s, Step(t, i, false), s1);
    Unpublishes(s1, t, i);
    assert s1.threads[t := Idle] == s.threads[t := Idle];
    assert Returned(s1, t, i) == Returned(s, t, i);
    Then(s, Step(t, i, false), s1, Returned(s, t, i));
  }

  /** A reader that publishes what is in the cell returns it with a reference more. */
  lemma Publishes(s: State, t: nat, i: nat)
    requires ReaderAt(s, t, Publish, i) && s.threads[t].v.ptr != 0 && s.Cur(s.threads[t].c.o).ptr == s.threads[t].v.ptr
    ensures Gets(s, Step(t, i, false), Returned(Counted(s, s.threads[t].v.ptr, 1), t, i))
  {
    var pc := s.threads[t];
    var s1 := Become(Write(s, i, s.slots[i].(value := pc.v.ptr)), t, pc.(at := Check));
    assert Does(s, Step(t, i, false), s1);
    LooksAgain(s1, t, i);
    var end := Returned(Counted(s, pc.v.ptr, 1), t, i);
    assert s1.threads[t := Idle] == s.threads[t := Idle];
    assert Returned(Counted(s1, pc.v.ptr, 1), t, i) == end;
    Then(s, Step(t, i, false), s1, end);
  }

  // ---------------------------------------------------------------- calls from their beginning

  /** The call `c` has returned the word `v` with a reference more; slot `i`, through which it went, is free again. */
  function Answered(s: State, t: nat, i: nat, c: Call, v: Word): State
    requires t < |s.threads| && i < |s.slots|
  {
    Become(Write(Counted(s, v.ptr, 1), i, s.slots[i].(holder := t)), t, Idle)
      .(handles := Give(GiveArgs(s.handles, c.op, false), v.ptr))
  }

  predicate Vacant(s: State, i: nat) {
    i < |s.slots| && s.slots[i].key == 0 && !s.slots[i].flag && s.slots[i].value == 0 && s.slots[i].grant == 0
  }

  /** A reader that has seen a pointer gets it through any vacant slot. */
  lemma Claims(s: State, t: nat, i: nat)
    requires ReaderAt(s, t, Alloc, i) && Vacant(s, i)
    requires s.threads[t].v.ptr != 0 && s.Cur(s.threads[t].c.o).ptr == s.threads[t].v.ptr
    ensures Gets(s, Step(t, i, false), Answered(s, t, i, s.threads[t].c, s.threads[t].v))
  {
    var pc, h := s.threads[t], s.slots[i];
    var s1 := Become(Write(s, i, h.(key := Key(pc.c.o), holder := t)), t, pc.(s := i, at := Publish));
    assert Does(s, Step(t, i, false), s1);
    Publishes(s1, t, i);
    var end := Answered(s, t, i, pc.c, pc.v);
    assert s1.threads[t := Idle] == s.threads[t := Idle];
    assert s1.slots[i].(key := 0, value := 0, grant := 0) == h.(holder := t);
    assert s1.slots[i := h.(holder := t)] == s.slots[i := h.(holder := t)];
    assert Returned(Counted(s1, pc.v.ptr, 1), t, i) == end;
    Then(s, Step(t, i, false), s1, end);
  }

  /** `load`: the content of the cell, with a reference on what it points at. */
  lemma Loads(s: State, t: nat, i: nat)
    requires ReaderAt(s, t, Read, i) && Vacant(s, i) && s.threads[t].c.op.Load?
    ensures var c, v := s.threads[t].c, s.Cur(s.threads[t].c.o);
      Gets(s, Step(t, i, false), if v.ptr == 0 then Become(s, t, Idle) else Answered(s, t, i, c, v))
  {
    var pc := s.threads[t];
    var v := s.Cur(pc.c.o);
    if v.ptr == 0 {
      LoadsNull(s, t, i);
    } else {
      var s1 := Become(s, t, pc.(v := v, at := Alloc));
      assert Does(s, Step(t, i, false), s1);
      Claims(s1, t, i);
      assert s1.threads[t := Idle] == s.threads[t := Idle];
      assert Answered(s1, t, i, pc.c, v) == Answered(s, t, i, pc.c, v);
      Then(s, Step(t, i, false), s1, Answered(s, t, i, pc.c, v));
    }
  }

  lemma LoadsNull(s: State, t: nat, i: nat)
    requires ReaderAt(s, t, Read, i) && s.Cur(s.threads[t].c.o).ptr == 0
    ensures Gets(s, Step(t, i, false), Become(s, t, Idle))
  {
    var s1 := Become(s, t, s.threads[t].(v := s.Cur(s.threads[t].c.o), at := Done));
    assert Does(s, Step(t, i, false), s1);
    Returns(s1, t, i);
    assert s1.threads[t := Idle] == s.threads[t := Idle];
    Then(s, Step(t, i, false), s1, Become(s, t, Idle));
  }

  /**
   * A compare-exchange that fails: it returns what the cell holds. That is the handle on `expected` where
   * the pointers are the same, nothing to hold where it is null, and otherwise what a `load` returns.
   */
  lemma Fails(s: State, t: nat, i: nat)
    requires ReaderAt(s, t, Try, i) && Vacant(s, i) && s.Cur(s.threads[t].c.o) != s.threads[t].c.op.expected
    ensures var c, v := s.threads[t].c, s.Cur(s.threads[t].c.o);
      Gets(s, Step(t, i, false),
           if v.ptr == c.op.expected.ptr || v.ptr == 0 then
             Become(s, t, Idle).(handles := Give(Give(s.handles, c.op.desired.ptr), c.op.expected.ptr))
           else Answered(s, t, i, c, v))
  {
    var pc := s.threads[t];
    var v := s.Cur(pc.c.o);
    if v.ptr == pc.c.op.expected.ptr || v.ptr == 0 {
      FailsAtOnce(s, t, i);
    } else {
      var s1 := Become(s, t, pc.(v := v, at := Alloc));
      assert Does(s, Step(t, i, false), s1);
      Claims(s1, t, i);
      assert s1.threads[t := Idle] == s.threads[t := Idle];
      assert Answered(s1, t, i, pc.c, v) == Answered(s, t, i, pc.c, v);
      Then(s, Step(t, i, false), s1, Answered(s, t, i, pc.c, v));
    }
  }

  lemma FailsAtOnce(s: State, t: nat, i: nat)
    requires ReaderAt(s, t, Try, i) && s.Cur(s.threads[t].c.o) != s.threads[t].c.op.expected
    requires var p := s.Cur(s.threads[t].c.o).ptr; p == s.threads[t].c.op.expected.ptr || p == 0
    ensures var op := s.threads[t].c.op;
      Gets(s, Step(t, i, false),
           Become(s, t, Idle).(handles := Give(Give(s.handles, op.desired.ptr), op.expected.ptr)))
  {
    var pc := s.threads[t];
    var v, op := s.Cur(pc.c.o), pc.c.op;
    var given := GiveArgs(s.handles, op, v.ptr == op.expected.ptr);
    var s1 := Become(s, t, pc.(v := v, at := Done)).(handles := given);
    assert Does(s, Step(t, i, false), s1);
    Returns(s1, t, i);
    assert s1.threads[t := Idle] == s.threads[t := Idle];
    var end := Become(s, t, Idle).(handles := Give(Give(s.handles, op.desired.ptr), op.expected.ptr));
    assert Give(given, v.ptr) == end.handles;
    Then(s, Step(t, i, false), s1, end);
  }

  // ---------------------------------------------------------------- another round

  /** A reader at slot `i` that got nothing, the pointer having gone without a grant: it takes what is there now. */
  lemma LooksFurther(s: State, t: nat, i: nat)
    requires ReaderAt(s, t, Decide, i) && s.threads[t].acq == 0 && s.slots[i].value == 0 && s.slots[i].grant == 0
    requires var c := s.threads[t].c; c.op.Cas? && !c.op.weak ==> s.Cur(c.o) != c.op.expected
    ensures var cur := s.Cur(s.threads[t].c.o);
      Gets(s, Step(t, i, false),
           Returned(Counted(Become(s, t, s.threads[t].(v := cur)), cur.ptr, if cur.ptr == 0 then 0 else 1), t, i))
  {
    var pc := s.threads[t];
    var cur := s.Cur(pc.c.o);
    var next := pc.(v := cur, at := if cur.ptr == 0 then Free else Publish);
    var s1 := Become(s, t, next);
    assert Does(s, Step(t, i, false), s1);
    if cur.ptr == 0 {
      Frees(s1, t, i);
    } else {
      Publishes(s1, t, i);
    }
    var m := Become(s, t, pc.(v := cur));
    assert s.threads[t := pc.(v := cur)][t := next] == s.threads[t := next];
    assert Become(m, t, next) == s1;
    ReturnsAlike(m, t, i, next, if cur.ptr == 0 then 0 else 1);
    Then(s, Step(t, i, false), s1, Returned(Counted(m, cur.ptr, if cur.ptr == 0 then 0 else 1), t, i));
  }

  /** A strong compare-exchange that sees `expected` come back gives its slot back and tries again. */
  lemma TriesAgain(s: State, t: nat, i: nat)
    requires ReaderAt(s, t, Decide, i) && s.threads[t].acq == 0
    requires var c := s.threads[t].c; c.op.Cas? && !c.op.weak && s.Cur(c.o) == c.op.expected
    ensures Gets(s, Step(t, i, false), Become(Write(s, i, s.slots[i].(key := 0)), t, s.threads[t].(at := Try)))
  {
    var pc := s.threads[t];
    var s1 := Become(s, t, pc.(at := FreeRetry));
    var end := Become(Write(s, i, s.slots[i].(key := 0)), t, pc.(at := Try));
    assert Does(s, Step(t, i, false), s1);
    assert s1.threads[t := pc.(at := Try)] == s.threads[t := pc.(at := Try)];
    assert Does(s1, Step(t, i, false), end);
    Then(s1, Step(t, i, false), end, end);
    Then(s, Step(t, i, false), s1, end);
  }

  // ---------------------------------------------------------------- grants

  /** The slot publishes `p` for the cell `o`. */
  predicate Hit(h: Slot, o: nat, p: nat) { h.key == Key(o) && h.value == p }

  function Hits(slots: seq<Slot>, o: nat, p: nat, i: nat): nat
    requires i <= |slots|
    decreases |slots| - i
  {
    if i == |slots| then 0 else Hits(slots, o, p, i + 1) + if Hit(slots[i], o, p) then 1 else 0
  }

  /** Thread `t` has granted a reference to every such slot from `i` on. */
  function Served(slots: seq<Slot>, o: nat, p: nat, t: nat, i: nat): (r: seq<Slot>)
    ensures |r| == |slots|
  {
    seq(|slots|, j requires 0 <= j < |slots| =>
      if i <= j && Hit(slots[j], o, p) then slots[j].(value := 0, grant := p, marker := t) else slots[j])
  }

  /** Thread `t` is a writer at stage `to`, and nobody has stalled while it marks a slot. */
  predicate WriterAt(s: State, t: nat, to: GrantStage) {
    && s.WellFormed() && t < |s.threads| && s.threads[t].Writer? && s.threads[t].to == to && InRange(s, s.threads[t])
    && s.threads[t].p != 0 && forall j :: 0 <= j < SLOTS ==> !s.slots[j].flag
  }

  /** What the scan of the writer `t` makes of `s`: who is found is served, and the rest of the budget is released. */
  ghost predicate Scanned(s: State, t: nat, s': State)
    requires WriterAt(s, t, MarkRead)
  {
    var Writer(o, p, _, kept, _, i, n) := s.threads[t];
    var d := n + Hits(s.slots, o, p, i) - SLOTS;
    && 0 <= s.Count(p) + d
    && s' == Become(Counted(s, p, d), t, Idle)
               .(slots := Served(s.slots, o, p, t, i), handles := if kept == 1 then Give(s.handles, p) else s.handles)
  }

  lemma ScansNone(s: State, t: nat, a: Action, s': State)
    requires WriterAt(s, t, MarkRead) && s.threads[t].i == SLOTS && Scanned(s, t, s') && a == Step(t, 0, false)
    ensures Gets(s, a, s')
  {
    var Writer(o, p, _, kept, _, i, n) := s.threads[t];
    assert Served(s.slots, o, p, t, SLOTS) == s.slots;
    assert Does(s, a, s');
    Then(s, a, s', s');
  }

  /** A slot that publishes something else, or for another cell, is passed over. */
  lemma PassesOver(s: State, t: nat, a: Action, s1: State, s': State)
    requires WriterAt(s, t, MarkRead) && s.threads[t].i < SLOTS && a == Step(t, 0, false)
    requires var pc := s.threads[t]; !Hit(s.slots[pc.i], pc.o, pc.p) && s1 == Become(s, t, pc.(i := pc.i + 1))
    requires Gets(s1, a, s')
    ensures Gets(s, a, s')
  {
    var pc := s.threads[t];
    if s.slots[pc.i].value == pc.p {
      var m := Become(s, t, pc.(to := MarkOwner));
      assert Does(s, a, m);
      assert m.threads[t := pc.(i := pc.i + 1)] == s.threads[t := pc.(i := pc.i + 1)];
      assert Does(m, a, s1);
      Then(m, a, s1, s');
      Then(s, a, m, s');
    } else {
      assert Does(s, a, s1);
      Then(s, a, s1, s');
    }
  }

  /** The four steps of `mark` on a slot that publishes `p` for the cell: it has a grant then. */
  lemma Marks(s: State, t: nat, a: Action, s4: State, s': State)
    requires WriterAt(s, t, MarkRead) && s.threads[t].i < SLOTS && a == Step(t, 0, false)
    requires var pc := s.threads[t];
      && Hit(s.slots[pc.i], pc.o, pc.p)
      && s4 == Become(Write(s, pc.i, s.slots[pc.i].(value := 0, grant := pc.p, marker := t)), t,
                      pc.(i := pc.i + 1, n := pc.n + 1))
    requires Gets(s4, a, s')
    ensures Gets(s, a, s')
  {
    var pc := s.threads[t];
    var h := s.slots[pc.i];
    var s1 := Become(s, t, pc.(to := MarkOwner));
    var s2 := Become(Write(s, pc.i, h.(flag := true, marker := t)), t, pc.(to := MarkValue));
    assert Does(s, a, s1);
    assert s1.threads[t := pc.(to := MarkValue)] == s2.threads;
    assert Does(s1, a, s2);
    MarksValue(s2, t, a, s4, s');
    Then(s1, a, s2, s');
    Then(s, a, s1, s');
  }

  lemma MarksValue(s: State, t: nat, a: Action, s2: State, s': State)
    requires s.WellFormed() && t < |s.threads| && s.threads[t].Writer? && InRange(s, s.threads[t])
    requires a == Step(t, 0, false)
    requires var pc := s.threads[t];
      && pc.to.MarkValue? && s.slots[pc.i].value == pc.p
      && s2 == Become(Write(s, pc.i, s.slots[pc.i].(value := 0, grant := pc.p, flag := false)), t,
                      pc.(to := MarkRead, i := pc.i + 1, n := pc.n + 1))
    requires Gets(s2, a, s')
    ensures Gets(s, a, s')
  {
    var pc := s.threads[t];
    var h := s.slots[pc.i].(value := 0, grant := pc.p);
    var s1 := Become(Write(s, pc.i, h), t, pc.(to := MarkClear, n := pc.n + 1));
    assert Does(s, a, s1);
    assert s1.threads[t := s2.threads[t]] == s2.threads;
    assert s1.slots[pc.i := h.(flag := false)] == s2.slots;
    assert Does(s1, a, s2);
    Then(s1, a, s2, s');
    Then(s, a, s1, s');
  }

  /** A writer that has marked a slot gives the mark back, whether it found the publication still there or gone. */
  lemma Unmarks(s: State, t: nat)
    requires s.WellFormed() && t < |s.threads| && s.threads[t].Writer? && InRange(s, s.threads[t])
    requires s.threads[t].to.MarkValue? && s.slots[s.threads[t].i].value != s.threads[t].p
    ensures var pc := s.threads[t];
      Gets(s, Step(t, 0, false), Become(Write(s, pc.i, s.slots[pc.i].(flag := false)), t,
                                        pc.(to := MarkRead, i := pc.i + 1)))
  {
    var pc, a := s.threads[t], Step(t, 0, false);
    var s1 := Become(s, t, pc.(to := MarkClear));
    var end := Become(Write(s, pc.i, s.slots[pc.i].(flag := false)), t, pc.(to := MarkRead, i := pc.i + 1));
    assert Does(s, a, s1);
    assert s1.threads[t := end.threads[t]] == end.threads;
    assert Does(s1, a, end);
    Then(s1, a, end, end);
    Then(s, a, s1, end);
  }

  /** A writer that finds the slot marked by another one looks again, and passes over it if the publication is gone. */
  lemma LooksOnceMore(s: State, t: nat)
    requires s.WellFormed() && t < |s.threads| && s.threads[t].Writer? && InRange(s, s.threads[t])
    requires s.threads[t].to.MarkOwner? && s.slots[s.threads[t].i].value != s.threads[t].p
    requires var h := s.slots[s.threads[t].i]; h.flag && h.key == Key(s.threads[t].o)
    ensures var pc := s.threads[t];
      Gets(s, Step(t, 0, false), Become(s, t, pc.(to := MarkRead, i := pc.i + 1)))
  {
    var pc, a := s.threads[t], Step(t, 0, false);
    var s1, end := Become(s, t, pc.(to := MarkRead)), Become(s, t, pc.(to := MarkRead, i := pc.i + 1));
    assert Does(s, a, s1);
    assert s1.threads[t := end.threads[t]] == end.threads;
    assert Does(s1, a, end);
    Then(s1, a, end, end);
    Then(s, a, s1, end);
  }

  lemma ServedNext(slots: seq<Slot>, o: nat, p: nat, t: nat, i: nat)
    requires i < |slots| && p != 0
    ensures
      var slots' := if Hit(slots[i], o, p) then slots[i := slots[i].(value := 0, grant := p, marker := t)] else slots;
      && Served(slots', o, p, t, i + 1) == Served(slots, o, p, t, i)
      && Hits(slots', o, p, i + 1) + (if Hit(slots[i], o, p) then 1 else 0) == Hits(slots, o, p, i)
  {
    var slots' := if Hit(slots[i], o, p) then slots[i := slots[i].(value := 0, grant := p, marker := t)] else slots;
    HitsBehind(slots, slots', o, p, i + 1);
  }

  lemma {:induction false} HitsBehind(slots: seq<Slot>, slots': seq<Slot>, o: nat, p: nat, i: nat)
    requires i <= |slots| == |slots'| && forall j :: i <= j < |slots| ==> slots'[j] == slots[j]
    ensures Hits(slots', o, p, i) == Hits(slots, o, p, i)
    decreases |slots| - i
  {
    if i < |slots| {
      HitsBehind(slots, slots', o, p, i + 1);
    }
  }

  /** The state when the writer has done with the slot that it is at. */
  function PastSlot(s: State, t: nat): State
    requires WriterAt(s, t, MarkRead) && s.threads[t].i < SLOTS
  {
    var pc, h := s.threads[t], s.slots[s.threads[t].i];
    if Hit(h, pc.o, pc.p) then
      Become(Write(s, pc.i, h.(value := 0, grant := pc.p, marker := t)), t, pc.(i := pc.i + 1, n := pc.n + 1))
    else Become(s, t, pc.(i := pc.i + 1))
  }

  lemma PastSlotIs(s: State, t: nat)
    requires WriterAt(s, t, MarkRead) && s.threads[t].i < SLOTS
    ensures WriterAt(PastSlot(s, t), t, MarkRead)
    ensures var pc, s1 := s.threads[t], PastSlot(s, t);
      var pc1 := s1.threads[t];
      && pc1 == pc.(i := pc.i + 1, n := pc1.n) && s1.threads[t := Idle] == s.threads[t := Idle]
      && s1 == s.(threads := s1.threads, slots := s1.slots)
      && Served(s1.slots, pc.o, pc.p, t, pc.i + 1) == Served(s.slots, pc.o, pc.p, t, pc.i)
      && pc1.n + Hits(s1.slots, pc.o, pc.p, pc.i + 1) == pc.n + Hits(s.slots, pc.o, pc.p, pc.i)
  {
    var pc := s.threads[t];
    ServedNext(s.slots, pc.o, pc.p, t, pc.i);
    assert PastSlot(s, t).threads[t := Idle] == s.threads[t := Idle];
  }

  lemma ScannedNext(s: State, t: nat, s': State)
    requires WriterAt(s, t, MarkRead) && Scanned(s, t, s') && s.threads[t].i < SLOTS
    ensures WriterAt(PastSlot(s, t), t, MarkRead) && Scanned(PastSlot(s, t), t, s')
  {
    PastSlotIs(s, t);
  }

  lemma {:induction false} Scans(s: State, t: nat, a: Action, s': State)
    requires WriterAt(s, t, MarkRead) && Scanned(s, t, s') && a == Step(t, 0, false)
    ensures Gets(s, a, s')
    decreases SLOTS - s.threads[t].i
  {
    if s.threads[t].i == SLOTS {
      ScansNone(s, t, a, s');
    } else {
      ScannedNext(s, t, s');
      Scans(PastSlot(s, t), t, a, s');
      if Hit(s.slots[s.threads[t].i], s.threads[t].o, s.threads[t].p) {
        Marks(s, t, a, PastSlot(s, t), s');
      } else {
        PassesOver(s, t, a, PastSlot(s, t), s');
      }
    }
  }

  /** The owners of the slots, and what they publish. */
  function Owners(slots: seq<Slot>): (r: seq<nat>)
    ensures |r| == |slots|
  {
    seq(|slots|, j requires 0 <= j < |slots| => slots[j].key)
  }

  function Values(slots: seq<Slot>): (r: seq<nat>)
    ensures |r| == |slots|
  {
    seq(|slots|, j requires 0 <= j < |slots| => slots[j].value)
  }

  /** The slots that the scan serves are those that `Table.GrantAll` counts. */
  lemma {:induction false} HitsAreMatches(slots: seq<Slot>, o: nat, p: nat, i: nat)
    requires i <= |slots|
    ensures Matches(Owners(slots), Values(slots), Key(o), p, i) + Hits(slots, o, p, i)
         == Matches(Owners(slots), Values(slots), Key(o), p, |slots|)
    decreases |slots| - i
  {
    if i < |slots| {
      HitsAreMatches(slots, o, p, i + 1);
    }
  }

  /** The state once the writer `t` has its budget. */
  function Budgeted(s: State, t: nat): State
    requires WriterAt(s, t, Budget) && s.threads[t].nrefs <= SLOTS
  {
    Become(Counted(s, s.threads[t].p, SLOTS - s.threads[t].nrefs), t, s.threads[t].(to := MarkRead))
  }

  lemma Budgets(s: State, t: nat)
    requires Inv(s) && WriterAt(s, t, Budget)
    ensures s.threads[t].nrefs <= s.Count(s.threads[t].p) && s.threads[t].i == s.threads[t].n == 0
  {
    assert PCOk(s.cells, s.threads[t]);
    CountCovers(s, s.threads[t].p);
  }

  lemma TakesBudget(s: State, t: nat)
    requires WriterAt(s, t, Budget)
    ensures Does(s, Step(t, 0, false), Budgeted(s, t)) && WriterAt(Budgeted(s, t), t, MarkRead)
  {}

  /** Every reader that publishes the pointer is served, and the rest of what the writer had in hand is released. */
  function Ended(s: State, t: nat): State
    requires WriterAt(s, t, Budget) && s.threads[t].nrefs <= s.Count(s.threads[t].p)
  {
    var pc := s.threads[t];
    Become(Counted(Budgeted(s, t), pc.p, Hits(s.slots, pc.o, pc.p, 0) - SLOTS), t, Idle)
      .(slots := Served(s.slots, pc.o, pc.p, t, 0),
        handles := if pc.kept == 1 then Give(s.handles, pc.p) else s.handles)
  }

  lemma Grants(s: State, t: nat)
    requires WriterAt(s, t, Budget)
    requires Does(s, Step(t, 0, false), Budgeted(s, t)) && WriterAt(Budgeted(s, t), t, MarkRead)
    requires s.threads[t].nrefs <= s.Count(s.threads[t].p) && s.threads[t].i == s.threads[t].n == 0
    ensures Gets(s, Step(t, 0, false), Ended(s, t))
  {
    Scans(Budgeted(s, t), t, Step(t, 0, false), Ended(s, t));
    Then(s, Step(t, 0, false), Budgeted(s, t), Ended(s, t));
  }

  lemma EndedState(s: State, t: nat)
    requires WriterAt(s, t, Budget) && s.threads[t].nrefs <= s.Count(s.threads[t].p)
    ensures var pc, s' := s.threads[t], Ended(s, t);
      && s'.threads == s.threads[t := Idle] && s'.cells == s.cells && s'.slots == Served(s.slots, pc.o, pc.p, t, 0)
      && s'.Count(pc.p) == s.Count(pc.p) - pc.nrefs + Matches(Owners(s.slots), Values(s.slots), Key(pc.o), pc.p, SLOTS)
      && (forall q :: q != pc.p ==> s'.Count(q) == s.Count(q))
      && s'.handles == if pc.kept == 1 then Give(s.handles, pc.p) else s.handles
  {
    HitsAreMatches(s.slots, s.threads[t].o, s.threads[t].p, 0);
  }

  /**
   * `grant`, in any state that a run may reach, with nobody stalled while it marks a slot: every reader
   * with a publication of the pointer gets one reference, and the count changes as that of `Pointer.Grant`.
   */
  lemma GrantServesReaders(s: State, t: nat) returns (s': State)
    requires Inv(s) && WriterAt(s, t, Budget)
    ensures Gets(s, Step(t, 0, false), s') && s'.threads == s.threads[t := Idle] && s'.cells == s.cells
    ensures var pc := s.threads[t];
      && s'.slots == Served(s.slots, pc.o, pc.p, t, 0)
      && s'.Count(pc.p) == s.Count(pc.p) - pc.nrefs + Matches(Owners(s.slots), Values(s.slots), Key(pc.o), pc.p, SLOTS)
      && (forall q :: q != pc.p ==> s'.Count(q) == s.Count(q))
      && s'.handles == if pc.kept == 1 then Give(s.handles, pc.p) else s.handles
  {
    Budgets(s, t);
    TakesBudget(s, t);
    Grants(s, t);
    EndedState(s, t);
    s' := Ended(s, t);
  }
}
