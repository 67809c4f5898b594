/**
 * `unlink_aid_` from any words whatever: what it does, and whether it ends. It completes the
 * unlinking of a run exactly when every marked word of the run names the direct predecessor; `pred_`
 * can leave other ones behind.
 */
module ListAiding {
  import opened ListHelping
  import opened ListLine
  import opened ListModel
  import opened ListRepair

  /** What a call came to: the words, the predecessor and the new successor word; or it did not end. */
  datatype Aided = Stuck | Aided(succ: seq<SWord>, pred: seq<PWord>, ra: nat, rb: SWord)

  /** The words when the loop in the middle starts: `x` is marked, and has its D mark if it has a successor. */
  function Announced(succ: seq<SWord>, x: nat): seq<SWord>
    requires x < |succ|
  {
    if succ[x].ptr == 0 then succ else succ[x := succ[x].(d := true)]
  }

  /** The end of `unlink_aid_`: moves the word of `b` back, and makes `a` skip `x` if it names that S-marked. */
  function Skipped(succ: seq<SWord>, pred: seq<PWord>, a: nat, x: nat, b: nat): Aided {
    if a >= |succ| || x >= |succ| || b >= |succ| || b >= |pred| then Stuck
    else
      var pred' := if pred[b].ptr == x then pred[b := PWord(a, pred[b].m)] else pred;
      if succ[a].ptr == x && succ[a].s then
        var rb := SWord(b, false, succ[a].d);
        Aided(succ[a := rb][x := SNIL], pred', a, rb)
      else
        Aided(succ[x := SNIL], pred', a, succ[a])
  }

  /** What follows the loop in the middle: nothing when `x` has no successor any more. */
  function Ending(o: Aided, ra: nat, x: nat): Aided {
    if o.Stuck? then Stuck
    else if o.rb.ptr == 0 then Aided(o.succ, o.pred, ra, SNIL)
    else Skipped(o.succ, o.pred, ra, x, o.rb.ptr)
  }

  /** The copy of the word of `x` after the node behind it was completed; nil means to look again. */
  function Reloaded(o: Aided, x: nat): SWord
    requires o.Aided? && x < |o.succ|
  {
    if o.rb.ptr == 0 then o.succ[x] else o.rb
  }

  /**
   * `unlink_aid_(a, x)`, as far as `fuel` lasts, and as long as it does not follow nil. A node that is
   * marked already is cut out of what its word names, whether that is `a` or not.
   */
  function Aid(succ: seq<SWord>, pred: seq<PWord>, a: nat, x: nat, fuel: nat): Aided
    decreases fuel
  {
    if fuel == 0 || x >= |succ| || x >= |pred| || pred[x] == PWord(0, true) then Stuck
    else if pred[x].ptr == 0 then Aided(succ, pred, 0, SNIL)
    else
      var ra := if pred[x].m then pred[x].ptr else a;
      Ending(Cascade(Announced(succ, x), pred[x := PWord(ra, true)], x, Announced(succ, x)[x], fuel - 1), ra, x)
  }

  /** The loop in the middle, which completes what is S-marked behind `x` first; `xs` is the copy of its word. */
  function Cascade(succ: seq<SWord>, pred: seq<PWord>, x: nat, xs: SWord, fuel: nat): Aided
    decreases fuel
  {
    if xs.ptr == 0 || !xs.s then Aided(succ, pred, x, xs)
    else if fuel == 0 then Stuck
    else
      var o := Aid(succ, pred, x, xs.ptr, fuel - 1);
      if o.Stuck? || x >= |o.succ| then Stuck else Cascade(o.succ, o.pred, x, Reloaded(o, x), fuel - 1)
  }

  /** A call that ends does the same however long it may take. */
  lemma {:induction false} AidEnds(succ: seq<SWord>, pred: seq<PWord>, a: nat, x: nat, fuel: nat, more: nat)
    requires fuel <= more && Aid(succ, pred, a, x, fuel).Aided?
    ensures Aid(succ, pred, a, x, more) == Aid(succ, pred, a, x, fuel)
    decreases fuel
  {
    if pred[x].ptr != 0 {
      var ra := if pred[x].m then pred[x].ptr else a;
      CascadeEnds(Announced(succ, x), pred[x := PWord(ra, true)], x, Announced(succ, x)[x], fuel - 1, more - 1);
    }
  }

  lemma {:induction false} CascadeEnds(succ: seq<SWord>, pred: seq<PWord>, x: nat, xs: SWord, fuel: nat, more: nat)
    requires fuel <= more && Cascade(succ, pred, x, xs, fuel).Aided?
    ensures Cascade(succ, pred, x, xs, more) == Cascade(succ, pred, x, xs, fuel)
    decreases fuel
  {
    if xs.ptr != 0 && xs.s {
      AidEnds(succ, pred, x, xs.ptr, fuel - 1, more - 1);
      var o := Aid(succ, pred, x, xs.ptr, fuel - 1);
      CascadeEnds(o.succ, o.pred, x, Reloaded(o, x), fuel - 1, more - 1);
    }
  }

  // ---------------------------------------------------------------- runs whose marks are direct

  /** A call for a node that has a successor, from when its marks are set. */
  function Begun(succ: seq<SWord>, pred: seq<PWord>, ra: nat, x: nat, fuel: nat): Aided
    requires x < |succ| && x < |pred|
  {
    var succ1 := succ[x := succ[x].(d := true)];
    Ending(Cascade(succ1, pred[x := PWord(ra, true)], x, succ1[x], fuel), ra, x)
  }

  lemma AidOnce(succ: seq<SWord>, pred: seq<PWord>, a: nat, x: nat, fuel: nat)
    requires 0 < fuel && x < |succ| && x < |pred| && pred[x].ptr != 0 && succ[x].ptr != 0
    ensures Aid(succ, pred, a, x, fuel) == Begun(succ, pred, if pred[x].m then pred[x].ptr else a, x, fuel - 1)
  {}

  /** A round of the loop. */
  lemma CascadeOnce(succ: seq<SWord>, pred: seq<PWord>, x: nat, xs: SWord, fuel: nat)
    requires 0 < fuel && xs.ptr != 0 && xs.s
    ensures var o := Aid(succ, pred, x, xs.ptr, fuel - 1);
      Cascade(succ, pred, x, xs, fuel) ==
        if o.Stuck? || x >= |o.succ| then Stuck else Cascade(o.succ, o.pred, x, Reloaded(o, x), fuel - 1)
  {}

  /** The first node of a run is cut out when the rest of it has been. */
  lemma RunEnding(succ: seq<SWord>, pred: seq<PWord>, a: nat, run: seq<nat>, b: nat)
    requires |succ| == |pred| && Run(succ, pred, a, run, b)
    ensures var x, rest := run[0], run[1..];
      var succ1, pred1 := succ[x := succ[x].(d := true)], pred[x := PWord(a, true)];
      Ending(Aided(HelpedSucc(succ1, x, rest, b), HelpedPred(pred1, x, rest, b), x, SWord(b, false, true)), a, x) ==
        Aided(HelpedSucc(succ, a, run, b), HelpedPred(pred, a, run, b), a, SWord(b, false, succ[a].d))
  {
    HelpedSuccCons(succ, a, run, b);
    HelpedPredCons(pred, a, run, b);
  }

  /** A run whose marked words name direct predecessors is completed. */
  lemma {:induction false} RunAided(succ: seq<SWord>, pred: seq<PWord>, a: nat, run: seq<nat>, b: nat)
    requires |succ| == |pred| && Run(succ, pred, a, run, b)
    ensures Aid(succ, pred, a, run[0], 2 * |run|) ==
      Aided(HelpedSucc(succ, a, run, b), HelpedPred(pred, a, run, b), a, SWord(b, false, succ[a].d))
    decreases |run|
  {
    var x, rest := run[0], run[1..];
    assert RunOk(succ, pred, a, run, b, 0);
    var succ1, pred1 := succ[x := succ[x].(d := true)], pred[x := PWord(a, true)];
    AidOnce(succ, pred, a, x, 2 * |run|);
    RunEnding(succ, pred, a, run, b);
    if rest == [] {
      HelpedNothing(succ1, pred1, x, b);
    } else {
      RunRest(succ, pred, a, run, b);
      RunAided(succ1, pred1, x, rest, b);
      LoopAided(succ1, pred1, x, rest, b);
      assert 2 * |rest| + 1 == 2 * |run| - 1;
    }
  }

  /** And so is what the loop has to do at the node before it. */
  lemma LoopAided(succ: seq<SWord>, pred: seq<PWord>, a: nat, run: seq<nat>, b: nat)
    requires |succ| == |pred| && Run(succ, pred, a, run, b)
    requires Aid(succ, pred, a, run[0], 2 * |run|) ==
      Aided(HelpedSucc(succ, a, run, b), HelpedPred(pred, a, run, b), a, SWord(b, false, succ[a].d))
    ensures Cascade(succ, pred, a, succ[a], 2 * |run| + 1) ==
      Aided(HelpedSucc(succ, a, run, b), HelpedPred(pred, a, run, b), a, SWord(b, false, succ[a].d))
  {
    CascadeOnce(succ, pred, a, succ[a], 2 * |run| + 1);
  }

  lemma RestAided(succ: seq<SWord>, pred: seq<PWord>, a: nat, run: seq<nat>, b: nat, fuel: nat)
    requires |succ| == |pred| && Run(succ, pred, a, run, b)
    ensures var o := Cascade(succ, pred, a, succ[a], fuel);
      o.Aided? ==>
        o == Aided(HelpedSucc(succ, a, run, b), HelpedPred(pred, a, run, b), a, SWord(b, false, succ[a].d))
  {
    if Cascade(succ, pred, a, succ[a], fuel).Aided? {
      RunAided(succ, pred, a, run, b);
      LoopAided(succ, pred, a, run, b);
      CascadeEnds(succ, pred, a, succ[a], fuel, fuel + 2 * |run| + 1);
      CascadeEnds(succ, pred, a, succ[a], 2 * |run| + 1, fuel + 2 * |run| + 1);
    }
  }

  // ---------------------------------------------------------------- runs whose marks are not

  /** The successor words of `head` and of the nodes in `front`, but for `last`, lead nowhere but to `front`. */
  ghost predicate Onward(succ: seq<SWord>, front: set<nat>, head: nat, last: nat) {
    && head < |succ| && (forall y :: y in front ==> y < |succ|)
    && (forall y {:trigger succ[y]} ::
      (y in front || y == head) && y != last ==> succ[y].ptr == 0 || succ[y].ptr in front)
  }

  /** The predecessor words of the nodes in `front` lead back there, or to `head`. */
  ghost predicate Backward(pred: seq<PWord>, front: set<nat>, head: nat) {
    && (forall y :: y in front ==> y < |pred|)
    && (forall y {:trigger pred[y]} :: y in front ==> pred[y].ptr == 0 || pred[y].ptr in front || pred[y].ptr == head)
  }

  ghost predicate Inward(succ: seq<SWord>, pred: seq<PWord>, front: set<nat>, head: nat) {
    0 !in front && head != 0 && Onward(succ, front, head, 0) && Backward(pred, front, head)
  }

  /** From inward words no call finds a way out, and none makes one. */
  lemma {:induction false} AidInward(succ: seq<SWord>, pred: seq<PWord>, a: nat, x: nat, fuel: nat, front: set<nat>,
                                     head: nat)
    requires Inward(succ, pred, front, head) && (a in front || a == head) && x in front
    ensures InwardEnd(Aid(succ, pred, a, x, fuel), front, head)
    decreases fuel
  {
    if fuel > 0 && pred[x].ptr != 0 {
      var ra := if pred[x].m then pred[x].ptr else a;
      var succ1, pred1 := Announced(succ, x), pred[x := PWord(ra, true)];
      CascadeInward(succ1, pred1, x, succ1[x], fuel - 1, front, head);
      EndingInward(Cascade(succ1, pred1, x, succ1[x], fuel - 1), ra, x, front, head);
    }
  }

  ghost predicate InwardEnd(o: Aided, front: set<nat>, head: nat) {
    match o
    case Stuck => true
    case Aided(succ, pred, _, rb) => Inward(succ, pred, front, head) && (rb.ptr == 0 || rb.ptr in front)
  }

  lemma {:induction false} CascadeInward(succ: seq<SWord>, pred: seq<PWord>, x: nat, xs: SWord, fuel: nat,
                                         front: set<nat>, head: nat)
    requires Inward(succ, pred, front, head) && x in front && (xs.ptr == 0 || xs.ptr in front)
    ensures InwardEnd(Cascade(succ, pred, x, xs, fuel), front, head)
    decreases fuel
  {
    if xs.ptr != 0 && xs.s && fuel > 0 {
      AidInward(succ, pred, x, xs.ptr, fuel - 1, front, head);
      var o := Aid(succ, pred, x, xs.ptr, fuel - 1);
      if o.Aided? {
        CascadeInward(o.succ, o.pred, x, Reloaded(o, x), fuel - 1, front, head);
      }
    }
  }

  lemma EndingInward(o: Aided, ra: nat, x: nat, front: set<nat>, head: nat)
    requires InwardEnd(o, front, head) && (ra in front || ra == head) && x in front
    ensures InwardEnd(Ending(o, ra, x), front, head)
  {}

  /** Every marked word of the run names the direct predecessor. */
  predicate DirectMarks(pred: seq<PWord>, a: nat, run: seq<nat>) {
    forall i :: 0 <= i < |run| && run[i] < |pred| && pred[run[i]].m ==> pred[run[i]].ptr == Before(a, run, i)
  }

  /**
   * A run between `a` and `b` whose marked words may name anything in `front` or `head`. Up to its
   * last node the list stays in `front`, from where only that one leads on to `b`.
   */
  ghost predicate Stretch(succ: seq<SWord>, pred: seq<PWord>, a: nat, run: seq<nat>, b: nat, front: set<nat>,
                          head: nat) {
    && |succ| == |pred| && run != [] && head != 0 && 0 !in front && 0 < b < |succ| && b !in front && !pred[b].m
    && (a in front || a == head) && a !in run && OneRun(run, front)
    && Onward(succ, front, head, run[|run| - 1]) && Backward(pred, front, head)
    && (forall y {:trigger pred[y]} :: y in front ==> pred[y].ptr != 0 && pred[y].ptr != y)
    && (forall i :: 0 <= i < |run| ==> Strung(succ, run, b, i))
    && (forall y {:trigger MarksBehind(succ, a, run, y)} :: y in front || y == head ==> MarksBehind(succ, a, run, y))
  }

  ghost predicate OneRun(run: seq<nat>, front: set<nat>) {
    (forall i :: 0 <= i < |run| ==> run[i] in front) && (forall i, j :: 0 <= i < j < |run| ==> run[i] != run[j])
  }

  predicate Strung(succ: seq<SWord>, run: seq<nat>, b: nat, i: nat)
    requires i < |run|
  {
    run[i] < |succ| && succ[run[i]].ptr == (if i < |run| - 1 then run[i + 1] else b)
    && succ[run[i]].s == (i < |run| - 1)
  }

  /** If `y` S-marks a node of the run it is the one before it. */
  predicate MarksBehind(succ: seq<SWord>, a: nat, run: seq<nat>, y: nat)
    requires y < |succ|
  {
    succ[y].s ==> forall i :: 0 <= i < |run| && run[i] == succ[y].ptr ==> y == Before(a, run, i)
  }

  /** With its first node marked, the rest of such a run is one. */
  lemma StretchRest(succ: seq<SWord>, pred: seq<PWord>, a: nat, run: seq<nat>, b: nat, front: set<nat>, head: nat,
                    ra: nat)
    requires Stretch(succ, pred, a, run, b, front, head) && |run| > 1
    requires ra != run[0] && (ra in front || ra == head)
    ensures var x := run[0];
      Stretch(succ[x := succ[x].(d := true)], pred[x := PWord(ra, true)], x, run[1..], b, front, head)
  {
    var x, rest := run[0], run[1..];
    var succ1 := succ[x := succ[x].(d := true)];
    OneRunRest(run, front);
    MarkedInside(succ, pred, front, head, run[|run| - 1], x, ra);
    forall i | 0 <= i < |rest|
      ensures Strung(succ1, rest, b, i)
    {
      StrungRest(succ, run, b, i, succ[x].(d := true));
    }
    forall y | y in front || y == head
      ensures MarksBehind(succ1, x, rest, y)
    {
      MarksBehindRest(succ, a, run, y);
    }
  }

  lemma MarkedInside(succ: seq<SWord>, pred: seq<PWord>, front: set<nat>, head: nat, last: nat, x: nat, ra: nat)
    requires Onward(succ, front, head, last) && Backward(pred, front, head) && x in front && 0 !in front && head != 0
    requires ra != x && (ra in front || ra == head)
    requires forall y :: y in front ==> pred[y].ptr != 0 && pred[y].ptr != y
    ensures Onward(succ[x := succ[x].(d := true)], front, head, last)
    ensures Backward(pred[x := PWord(ra, true)], front, head)
    ensures forall y :: y in front ==> pred[x := PWord(ra, true)][y].ptr != 0 && pred[x := PWord(ra, true)][y].ptr != y
  {}

  lemma OneRunRest(run: seq<nat>, front: set<nat>)
    requires OneRun(run, front) && |run| > 1
    ensures run[0] in front && OneRun(run[1..], front) && run[0] !in run[1..]
    ensures run[1..][|run| - 2] == run[|run| - 1] && run[|run| - 1] != run[0]
  {}

  lemma StrungRest(succ: seq<SWord>, run: seq<nat>, b: nat, i: nat, w: SWord)
    requires i + 1 < |run| && Strung(succ, run, b, i + 1) && run[0] != run[i + 1] && run[0] < |succ|
    ensures Strung(succ[run[0] := w], run[1..], b, i)
  {}

  lemma MarksBehindRest(succ: seq<SWord>, a: nat, run: seq<nat>, y: nat)
    requires y < |succ| && |run| > 1 && run[0] < |succ| && MarksBehind(succ, a, run, y)
    ensures var x := run[0]; MarksBehind(succ[x := succ[x].(d := true)], x, run[1..], y)
  {
    var x, rest := run[0], run[1..];
    forall i | succ[y].s && 0 <= i < |rest| && rest[i] == succ[y].ptr
      ensures y == Before(x, rest, i)
    {
      assert rest[i] == run[i + 1];
    }
  }

  /** A stretch whose marks are direct is a run. */
  lemma StretchIsRun(succ: seq<SWord>, pred: seq<PWord>, a: nat, run: seq<nat>, b: nat, front: set<nat>, head: nat)
    requires Stretch(succ, pred, a, run, b, front, head) && DirectMarks(pred, a, run)
    requires succ[a].ptr == run[0] && succ[a].s
    ensures Run(succ, pred, a, run, b)
  {
    forall i | 0 <= i < |run|
      ensures RunOk(succ, pred, a, run, b, i)
    {
      assert Strung(succ, run, b, i) && run[i] in front;
    }
  }

  /** With everything behind `x`, the first node of such a run, completed, and `x` too, nothing leads on to `b`. */
  lemma CutOffOnward(succ: seq<SWord>, run: seq<nat>, b: nat, front: set<nat>, head: nat)
    requires run != [] && OneRun(run, front) && Onward(succ, front, head, run[|run| - 1])
    ensures var x := run[0];
      Onward(HelpedSucc(succ[x := succ[x].(d := true)], x, run[1..], b)[x := SNIL], front, head, 0)
  {
    var x, rest := run[0], run[1..];
    assert rest == [] || run[|run| - 1] == rest[|rest| - 1];
    assert x in front;
  }

  lemma CutOffBackward(pred: seq<PWord>, run: seq<nat>, b: nat, front: set<nat>, head: nat, ra: nat)
    requires run != [] && OneRun(run, front) && Backward(pred, front, head) && (ra in front || ra == head)
    requires b !in front
    ensures var x := run[0];
      Backward(HelpedPred(pred[x := PWord(ra, true)], x, run[1..], b), front, head)
  {
    var x, rest := run[0], run[1..];
    assert x in front;
    forall y | y in rest
      ensures y in front && Before(x, rest, Place(rest, y)) in front
    {
      var i := Place(rest, y);
      assert run[i + 1] == y && run[i] == Before(x, rest, i);
    }
  }

  /**
   * Once everything behind it is completed, the first node `x` of such a run is cut out of what its
   * word names. If that is not `a`, nothing leads on to `b` any more.
   */
  lemma CutOffAlone(succ: seq<SWord>, pred: seq<PWord>, a: nat, run: seq<nat>, b: nat, front: set<nat>, head: nat,
                    ra: nat)
    requires Stretch(succ, pred, a, run, b, front, head) && ra != a && ra != run[0] && (ra in front || ra == head)
    ensures var x, rest := run[0], run[1..];
      var succ1, pred1 := succ[x := succ[x].(d := true)], pred[x := PWord(ra, true)];
      InwardEnd(Skipped(HelpedSucc(succ1, x, rest, b), HelpedPred(pred1, x, rest, b), ra, x, b), front, head)
  {
    var x, rest := run[0], run[1..];
    var succ2 := HelpedSucc(succ[x := succ[x].(d := true)], x, rest, b);
    assert x in front && Strung(succ, run, b, 0) && MarksBehind(succ, a, run, ra);
    assert !(succ2[ra].ptr == x && succ2[ra].s);
    CutOffOnward(succ, run, b, front, head);
    CutOffBackward(pred, run, b, front, head, ra);
    assert succ2[x := SNIL][ra] == succ2[ra];
  }

  /** When the marks of the rest are direct, it is the first node that has another one. */
  lemma FirstIsMisled(pred: seq<PWord>, a: nat, run: seq<nat>, w: PWord)
    requires run != [] && (forall i :: 0 < i < |run| ==> run[i] != run[0]) && run[0] < |pred|
    requires DirectMarks(pred[run[0] := w], run[0], run[1..]) && !DirectMarks(pred, a, run)
    ensures pred[run[0]].m && pred[run[0]].ptr != a
  {
    var rest := run[1..];
    forall i | 0 < i < |run| && run[i] < |pred| && pred[run[i]].m
      ensures pred[run[i]].ptr == Before(a, run, i)
    {
      assert rest[i - 1] == run[i];
    }
  }

  /** A run of one node, marked for another node than `a`. */
  lemma MisledAlone(succ: seq<SWord>, pred: seq<PWord>, a: nat, run: seq<nat>, b: nat, fuel: nat, front: set<nat>,
                    head: nat, ra: nat)
    requires Stretch(succ, pred, a, run, b, front, head) && |run| == 1
    requires ra != a && ra != run[0] && (ra in front || ra == head)
    ensures InwardEnd(Begun(succ, pred, ra, run[0], fuel), front, head)
  {
    var x := run[0];
    var succ1, pred1 := succ[x := succ[x].(d := true)], pred[x := PWord(ra, true)];
    assert Strung(succ, run, b, 0) && run[1..] == [];
    HelpedNothing(succ1, pred1, x, b);
    CutOffAlone(succ, pred, a, run, b, front, head, ra);
    assert Cascade(succ1, pred1, x, succ1[x], fuel) == Aided(succ1, pred1, x, succ1[x]);
  }

  /** The rest of the run is completed, its first node is not. */
  lemma MisledFirst(succ: seq<SWord>, pred: seq<PWord>, a: nat, run: seq<nat>, b: nat, fuel: nat, front: set<nat>,
                    head: nat, ra: nat)
    requires Stretch(succ, pred, a, run, b, front, head) && |run| > 1
    requires ra != a && ra != run[0] && (ra in front || ra == head)
    requires var x := run[0];
      var succ1, pred1 := succ[x := succ[x].(d := true)], pred[x := PWord(ra, true)];
      Stretch(succ1, pred1, x, run[1..], b, front, head) && DirectMarks(pred1, x, run[1..])
    ensures InwardEnd(Begun(succ, pred, ra, run[0], fuel), front, head)
  {
    var x, rest := run[0], run[1..];
    var succ1, pred1 := succ[x := succ[x].(d := true)], pred[x := PWord(ra, true)];
    assert Strung(succ, run, b, 0);
    StretchIsRun(succ1, pred1, x, rest, b, front, head);
    RestAided(succ1, pred1, x, rest, b, fuel);
    CutOffAlone(succ, pred, a, run, b, front, head, ra);
  }

  /** The rest of the run is not completed: the loop goes on from what the call for it left. */
  lemma MisledLater(succ: seq<SWord>, pred: seq<PWord>, ra: nat, x: nat, fuel: nat, front: set<nat>, head: nat)
    requires x in front && x < |succ| && x < |pred| && succ[x].ptr != 0 && succ[x].s && (ra in front || ra == head)
    requires 0 < fuel ==>
      var succ1, pred1 := succ[x := succ[x].(d := true)], pred[x := PWord(ra, true)];
      InwardEnd(Aid(succ1, pred1, x, succ[x].ptr, fuel - 1), front, head)
    ensures InwardEnd(Begun(succ, pred, ra, x, fuel), front, head)
  {
    var succ1, pred1 := succ[x := succ[x].(d := true)], pred[x := PWord(ra, true)];
    if 0 < fuel {
      CascadeOnce(succ1, pred1, x, succ1[x], fuel);
      var o := Aid(succ1, pred1, x, succ[x].ptr, fuel - 1);
      if o.Aided? {
        CascadeInward(o.succ, o.pred, x, Reloaded(o, x), fuel - 1, front, head);
      }
    }
    EndingInward(Cascade(succ1, pred1, x, succ1[x], fuel), ra, x, front, head);
  }

  /**
   * A run with a marked word that does not name the direct predecessor is never completed: if the
   * call ends, nothing leads on to `b` any more.
   */
  lemma {:induction false} Misled(succ: seq<SWord>, pred: seq<PWord>, a: nat, run: seq<nat>, b: nat, fuel: nat,
                                  front: set<nat>, head: nat)
    requires Stretch(succ, pred, a, run, b, front, head) && !DirectMarks(pred, a, run)
    ensures InwardEnd(Aid(succ, pred, a, run[0], fuel), front, head)
    decreases |run|, 2
  {
    assert run[0] in front && Strung(succ, run, b, 0);
    var ra := if pred[run[0]].m then pred[run[0]].ptr else a;
    if 0 < fuel {
      MisledBegun(succ, pred, a, run, b, fuel - 1, front, head, ra);
    }
    BegunInward(succ, pred, a, run[0], fuel, front, head, ra);
  }

  lemma BegunInward(succ: seq<SWord>, pred: seq<PWord>, a: nat, x: nat, fuel: nat, front: set<nat>, head: nat, ra: nat)
    requires x < |succ| && x < |pred| && pred[x].ptr != 0 && succ[x].ptr != 0
    requires ra == if pred[x].m then pred[x].ptr else a
    requires 0 < fuel ==> InwardEnd(Begun(succ, pred, ra, x, fuel - 1), front, head)
    ensures InwardEnd(Aid(succ, pred, a, x, fuel), front, head)
  {
    if 0 < fuel {
      AidOnce(succ, pred, a, x, fuel);
    }
  }

  lemma {:induction false} MisledBegun(succ: seq<SWord>, pred: seq<PWord>, a: nat, run: seq<nat>, b: nat, fuel: nat,
                                       front: set<nat>, head: nat, ra: nat)
    requires Stretch(succ, pred, a, run, b, front, head) && !DirectMarks(pred, a, run)
    requires run[0] < |pred| && ra == if pred[run[0]].m then pred[run[0]].ptr else a
    ensures run[0] < |succ| && InwardEnd(Begun(succ, pred, ra, run[0], fuel), front, head)
    decreases |run|, 1
  {
    assert run[0] in front && Strung(succ, run, b, 0);
    if |run| == 1 {
      assert run[1..] == [];
      FirstIsMisled(pred, a, run, pred[run[0]]);
      MisledAlone(succ, pred, a, run, b, fuel, front, head, ra);
    } else {
      StretchRest(succ, pred, a, run, b, front, head, ra);
      if DirectMarks(pred[run[0] := PWord(ra, true)], run[0], run[1..]) {
        FirstIsMisled(pred, a, run, PWord(ra, true));
        MisledFirst(succ, pred, a, run, b, fuel, front, head, ra);
      } else {
        MisledRest(succ, pred, a, run, b, fuel, front, head, ra);
      }
    }
  }

  lemma {:induction false} MisledRest(succ: seq<SWord>, pred: seq<PWord>, a: nat, run: seq<nat>, b: nat, fuel: nat,
                                      front: set<nat>, head: nat, ra: nat)
    requires Stretch(succ, pred, a, run, b, front, head) && |run| > 1 && run[0] < |pred| && (ra in front || ra == head)
    requires var x := run[0];
      var succ1, pred1 := succ[x := succ[x].(d := true)], pred[x := PWord(ra, true)];
      Stretch(succ1, pred1, x, run[1..], b, front, head) && !DirectMarks(pred1, x, run[1..])
    ensures run[0] < |succ| && InwardEnd(Begun(succ, pred, ra, run[0], fuel), front, head)
    decreases |run|, 0
  {
    var x := run[0];
    assert x in front && Strung(succ, run, b, 0);
    if 0 < fuel {
      Misled(succ[x := succ[x].(d := true)], pred[x := PWord(ra, true)], x, run[1..], b, fuel - 1, front, head);
    }
    MisledLater(succ, pred, ra, x, fuel, front, head);
  }

  // ---------------------------------------------------------------- lists with marked words that were moved back

  /** The marked word of `y`, a node of the chain, was moved back to an earlier node. */
  predicate Strays(was: seq<PWord>, pred: seq<PWord>, l: Line, y: nat)
    requires y < |was| && y < |pred|
  {
    && was[y].m && pred[y].m && y in l.nodes && y !in l.gone
    && Among(l, 0, PlaceBefore(l.nodes, y), pred[y].ptr)
  }

  /** The predecessor words are those of a line, but for marked ones that `pred_` has moved back. */
  predicate Strayed(was: seq<PWord>, pred: seq<PWord>, l: Line) {
    |pred| == |was| && forall y :: 0 <= y < |pred| ==> pred[y] == was[y] || Strays(was, pred, l, y)
  }

  lemma UnmarkedStays(was: seq<PWord>, pred: seq<PWord>, l: Line, y: nat)
    requires Strayed(was, pred, l) && y < |was| && !was[y].m
    ensures pred[y] == was[y]
  {}

  /** Moving another marked word back leads to such words again. */
  lemma MovedBackStrays(succ: seq<SWord>, was: seq<PWord>, pred: seq<PWord>, l: Line, head: nat, i: nat, j: nat)
    requires Spells(succ, was, l, head) && Strayed(was, pred, l) && j < i < |l.nodes| && On(l, i)
    requires pred[l.nodes[i]].m
    ensures Strayed(was, pred[l.nodes[i] := PWord(l.nodes[j], true)], l)
  {
    var x := l.nodes[i];
    var pred' := pred[x := PWord(l.nodes[j], true)];
    PlaceAt(l.nodes, head, |succ|, i);
    assert Strays(was, pred', l, x);
    forall y | 0 <= y < |pred'|
      ensures pred'[y] == was[y] || Strays(was, pred', l, y)
    {
      assert pred[y] == was[y] || Strays(was, pred, l, y);
    }
  }

  /** Between a node whose marked word was moved back like that and the node it names now nothing can be linked. */
  lemma StrayedRefuses(succ: seq<SWord>, was: seq<PWord>, pred: seq<PWord>, l: Line, head: nat, k: nat, i: nat, x: nat)
    requires Spells(succ, was, l, head) && k < i < |l.nodes| && On(l, k) && On(l, i) && x < |succ|
    requires l.nodes[k] < |succ| && l.nodes[i] < |was|
    requires pred == was[l.nodes[i] := PWord(l.nodes[k], true)] && !pred[l.nodes[k]].m
    requires was[l.nodes[i]].m && was[l.nodes[i]].ptr < |was| && was[was[l.nodes[i]].ptr].m
    ensures succ[l.nodes[k]].ptr != l.nodes[i] && succ[l.nodes[k]].ptr != 0 && !Lives(l, l.nodes[i])
    ensures pred[x] == PNIL <==> was[x] == PNIL
    ensures pred[x] == PNIL ==> succ[x] == SNIL && x != l.nodes[k]
  {
    WordsOf(succ, was, l, head, k);
    WordsOf(succ, was, l, head, i);
    assert SuccOk(succ, was, l, k) && PredOk(was, l, i) && Loose(succ, was, l, x);
    PrevOfNext(l, k);
    if l.nodes[Next(l, k)] == l.nodes[i] {
      ChainPlace(l.nodes, head, |succ|, Next(l, k), i);
    }
  }

  /** The nodes of the line at the places from 1 to `m`. */
  function Front(l: Line, m: nat): set<nat>
    requires m < |l.nodes|
  {
    set q: nat | 0 < q <= m :: l.nodes[q]
  }

  /** The last node of a run stands right before its end. */
  lemma {:induction false} RunLast(l: Line, head: nat, size: nat, k: nat)
    requires Shape(l, head, size) && On(l, k) && k + 1 < |l.nodes| && l.nodes[Next(l, k)] in l.dead
    ensures var m, run := Prev(l, RunEnd(l, k)), RunBehind(l, k);
      k < m < |l.nodes| - 1 && On(l, m) && run != [] && run[|run| - 1] == l.nodes[m]
    decreases |l.nodes| - k
  {
    var n := Next(l, k);
    assert l.nodes[n] != head;
    NextIsOn(l, head, size, k);
    if l.nodes[Next(l, n)] in l.dead {
      RunLast(l, head, size, n);
      assert RunBehind(l, n) != [];
    } else {
      PrevOfNext(l, n);
    }
  }

  lemma FrontPlace(l: Line, m: nat, q: nat)
    requires 0 < q <= m < |l.nodes|
    ensures l.nodes[q] in Front(l, m)
  {}

  /** The chain leads on within the front, up to the node at its last place. */
  lemma FrontOnward(succ: seq<SWord>, was: seq<PWord>, l: Line, head: nat, m: nat)
    requires Spells(succ, was, l, head) && 0 < m < |l.nodes| - 1 && On(l, m)
    ensures Onward(succ, Front(l, m), head, l.nodes[m])
  {
    var front := Front(l, m);
    forall y | (y in front || y == head) && y != l.nodes[m]
      ensures y < |succ| && (succ[y].ptr == 0 || succ[y].ptr in front)
    {
      var q: nat :| q <= m && l.nodes[q] == y;
      assert SuccOk(succ, was, l, q);
      NextCleared(l, q);
      assert Next(l, q) <= m;
      FrontPlace(l, m, Next(l, q));
      if q > 0 && On(l, q) == false && succ[y] != SNIL {
        var j: nat :| q + 1 <= j < Next(l, q) + 1 && l.nodes[j] == succ[y].ptr;
        FrontPlace(l, m, j);
      }
    }
  }

  lemma FrontBackward(succ: seq<SWord>, was: seq<PWord>, pred: seq<PWord>, l: Line, head: nat, m: nat)
    requires Spells(succ, was, l, head) && Strayed(was, pred, l) && m < |l.nodes| - 1
    ensures Backward(pred, Front(l, m), head)
    ensures forall y :: y in Front(l, m) ==> pred[y].ptr != 0 && pred[y].ptr != y
  {
    var front := Front(l, m);
    forall y | y in front
      ensures y < |pred| && pred[y].ptr != 0 && pred[y].ptr != y && (pred[y].ptr in front || pred[y].ptr == head)
    {
      var q: nat :| 0 < q <= m && l.nodes[q] == y;
      PlaceAt(l.nodes, head, |succ|, q);
      assert PredOk(was, l, q);
      assert pred[y] == was[y] || Strays(was, pred, l, y);
      var j: nat :| j < q && l.nodes[j] == pred[y].ptr;
      if 0 < j {
        FrontPlace(l, m, j);
      }
    }
  }

  /** Each node of a run stands in the chain, and the one before it too. */
  lemma RunPlaces(succ: seq<SWord>, was: seq<PWord>, l: Line, head: nat, k: nat, i: nat) returns (p: nat)
    requires Spells(succ, was, l, head) && On(l, k) && k + 1 < |l.nodes| && l.nodes[Next(l, k)] in l.dead
    requires i < |RunBehind(l, k)|
    ensures k <= p < Prev(l, RunEnd(l, k)) && On(l, p) && p + 1 < |l.nodes|
    ensures l.nodes[p] == Before(l.nodes[k], RunBehind(l, k), i) && l.nodes[Next(l, p)] == RunBehind(l, k)[i]
    decreases |l.nodes| - k
  {
    var n := Next(l, k);
    RunFirst(succ, was, l, head, k);
    RunLast(l, head, |succ|, k);
    if i == 0 {
      p := k;
    } else {
      p := RunPlaces(succ, was, l, head, n, i - 1);
    }
  }

  lemma FrontMarksBehind(succ: seq<SWord>, was: seq<PWord>, l: Line, head: nat, k: nat, q: nat)
    requires Spells(succ, was, l, head) && On(l, k) && k + 1 < |l.nodes| && l.nodes[Next(l, k)] in l.dead
    requires q + 1 < |l.nodes|
    ensures l.nodes[q] < |succ| && MarksBehind(succ, l.nodes[k], RunBehind(l, k), l.nodes[q])
  {
    assert SuccOk(succ, was, l, q);
    var y, run := l.nodes[q], RunBehind(l, k);
    forall i: nat | succ[y].s && i < |run| && run[i] == succ[y].ptr
      ensures y == Before(l.nodes[k], run, i)
    {
      var p := RunPlaces(succ, was, l, head, k, i);
      OneBefore(l, head, |succ|, p, q);
    }
  }

  /** A run of such a list is a stretch behind the nodes before its end. */
  lemma RunIsStretch(succ: seq<SWord>, was: seq<PWord>, pred: seq<PWord>, l: Line, head: nat, k: nat)
    requires Spells(succ, was, l, head) && Strayed(was, pred, l)
    requires On(l, k) && k + 1 < |l.nodes| && l.nodes[Next(l, k)] in l.dead
    ensures var m, e := Prev(l, RunEnd(l, k)), RunEnd(l, k);
      Stretch(succ, pred, l.nodes[k], RunBehind(l, k), l.nodes[e], Front(l, m), head)
  {
    var m, e, a, run := Prev(l, RunEnd(l, k)), RunEnd(l, k), l.nodes[k], RunBehind(l, k);
    var front := Front(l, m);
    RunLast(l, head, |succ|, k);
    RunIs(succ, was, l, head, k);
    FrontOnward(succ, was, l, head, m);
    FrontBackward(succ, was, pred, l, head, m);
    forall y | y in front || y == head
      ensures MarksBehind(succ, a, run, y)
    {
      var q: nat :| q <= m && l.nodes[q] == y;
      FrontMarksBehind(succ, was, l, head, k, q);
    }
    forall i | 0 <= i < |run|
      ensures run[i] in front && Strung(succ, run, l.nodes[e], i)
    {
      assert RunOk(succ, was, a, run, l.nodes[e], i);
      var p := RunPlaces(succ, was, l, head, k, i);
      NextCleared(l, p);
      FrontPlace(l, m, Next(l, p));
    }
    EndOutside(l, head, |succ|, k, m);
    UnmarkedStays(was, pred, l, l.nodes[e]);
    if 0 < k {
      FrontPlace(l, m, k);
    }
  }

  lemma EndOutside(l: Line, head: nat, size: nat, k: nat, m: nat)
    requires Shape(l, head, size) && k + 1 < |l.nodes| && m < RunEnd(l, k)
    ensures l.nodes[RunEnd(l, k)] !in Front(l, m) && 0 !in Front(l, m)
  {
    var e := RunEnd(l, k);
    forall q | 0 < q <= m
      ensures l.nodes[q] != l.nodes[e] && l.nodes[q] != 0
    {
      if l.nodes[q] == l.nodes[e] {
        ChainPlace(l.nodes, head, size, q, e);
      }
    }
  }

  /** A call that ended has cut out the run, and left words like those that it found. */
  ghost predicate Restored(o: Aided, l': Line, head: nat) {
    o.Aided? && exists was: seq<PWord> :: Spells(o.succ, was, l', head) && Strayed(was, o.pred, l')
  }

  /**
   * In a list with marked words that were moved back, `unlink_aid_` completes the run behind a node
   * exactly if every marked word of the run names the direct predecessor. Otherwise it does not end,
   * or leaves something else.
   */
  lemma RestoredExactlyIfDirect(succ: seq<SWord>, was: seq<PWord>, pred: seq<PWord>, l: Line, head: nat, k: nat)
    requires Spells(succ, was, l, head) && Strayed(was, pred, l)
    requires On(l, k) && k + 1 < |l.nodes| && l.nodes[Next(l, k)] in l.dead
    ensures DirectMarks(pred, l.nodes[k], RunBehind(l, k)) <==>
      exists fuel: nat :: Restored(Aid(succ, pred, l.nodes[k], l.nodes[Next(l, k)], fuel), CutRun(l, k), head)
  {
    var a, x, run, b := l.nodes[k], l.nodes[Next(l, k)], RunBehind(l, k), l.nodes[RunEnd(l, k)];
    RunFirst(succ, was, l, head, k);
    RunIsStretch(succ, was, pred, l, head, k);
    if DirectMarks(pred, a, run) {
      DirectIsRestored(succ, was, pred, l, head, k);
    } else {
      forall fuel: nat
        ensures !Restored(Aid(succ, pred, a, x, fuel), CutRun(l, k), head)
      {
        Misled(succ, pred, a, run, b, fuel, Front(l, Prev(l, RunEnd(l, k))), head);
        InwardIsNotRestored(succ, was, Aid(succ, pred, a, x, fuel), l, head, k);
      }
    }
  }

  lemma InwardIsNotRestored(succ: seq<SWord>, was: seq<PWord>, o: Aided, l: Line, head: nat, k: nat)
    requires Spells(succ, was, l, head) && On(l, k) && k + 1 < |l.nodes| && l.nodes[Next(l, k)] in l.dead
    requires InwardEnd(o, Front(l, Prev(l, RunEnd(l, k))), head)
    ensures !Restored(o, CutRun(l, k), head)
  {
    var m := Prev(l, RunEnd(l, k));
    RunLast(l, head, |succ|, k);
    EndOutside(l, head, |succ|, k, m);
    if 0 < k {
      FrontPlace(l, m, k);
    }
    if Restored(o, CutRun(l, k), head) {
      RestoredReaches(succ, was, o, l, head, k);
    }
  }

  lemma RestoredReaches(succ: seq<SWord>, was: seq<PWord>, o: Aided, l: Line, head: nat, k: nat)
    requires Spells(succ, was, l, head) && On(l, k) && k + 1 < |l.nodes| && l.nodes[Next(l, k)] in l.dead
    requires Restored(o, CutRun(l, k), head)
    ensures l.nodes[k] < |o.succ| && o.succ[l.nodes[k]].ptr == l.nodes[RunEnd(l, k)] != 0
  {
    var l' := CutRun(l, k);
    SpellsHelp(succ, was, l, head, k);
    CutRunNodes(l, k);
    RunIsBehind(l, head, |succ|, k);
    var was': seq<PWord> :| Spells(o.succ, was', l', head) && Strayed(was', o.pred, l');
    assert SuccOk(o.succ, was', l', k);
  }

  lemma DirectIsRestored(succ: seq<SWord>, was: seq<PWord>, pred: seq<PWord>, l: Line, head: nat, k: nat)
    requires Spells(succ, was, l, head) && Strayed(was, pred, l)
    requires On(l, k) && k + 1 < |l.nodes| && l.nodes[Next(l, k)] in l.dead
    requires DirectMarks(pred, l.nodes[k], RunBehind(l, k))
    ensures exists fuel: nat ::
      Restored(Aid(succ, pred, l.nodes[k], l.nodes[Next(l, k)], fuel), CutRun(l, k), head)
  {
    var a, run, b := l.nodes[k], RunBehind(l, k), l.nodes[RunEnd(l, k)];
    RunFirst(succ, was, l, head, k);
    RunIsStretch(succ, was, pred, l, head, k);
    RunIs(succ, was, l, head, k);
    StretchIsRun(succ, pred, a, run, b, Front(l, Prev(l, RunEnd(l, k))), head);
    RunAided(succ, pred, a, run, b);
    SpellsHelp(succ, was, l, head, k);
    HelpedStrays(was, pred, l, head, k);
    assert Restored(Aid(succ, pred, a, run[0], 2 * |run|), CutRun(l, k), head);
  }

  /** What helping makes of words that were moved back. */
  lemma HelpedStrays(was: seq<PWord>, pred: seq<PWord>, l: Line, head: nat, k: nat)
    requires Shape(l, head, |was|) && k + 1 < |l.nodes| && Strayed(was, pred, l)
    requires !was[l.nodes[RunEnd(l, k)]].m
    ensures var a, run, b := l.nodes[k], RunBehind(l, k), l.nodes[RunEnd(l, k)];
      Strayed(HelpedPred(was, a, run, b), HelpedPred(pred, a, run, b), CutRun(l, k))
  {
    var a, run, b := l.nodes[k], RunBehind(l, k), l.nodes[RunEnd(l, k)];
    CutRunNodes(l, k);
    forall y | 0 <= y < |pred|
      ensures HelpedPred(pred, a, run, b)[y] == HelpedPred(was, a, run, b)[y]
        || Strays(HelpedPred(was, a, run, b), HelpedPred(pred, a, run, b), CutRun(l, k), y)
    {
      assert pred[y] == was[y] || Strays(was, pred, l, y);
    }
  }

  // ---------------------------------------------------------------- a call that never ends

  /** While the node behind `x` is marked for another one and cut off already, the loop finds it again and again. */
  lemma {:induction false} FoundForever(succ: seq<SWord>, pred: seq<PWord>, x: nat, fuel: nat)
    requires x < |succ| == |pred| && succ[x].s && 0 < succ[x].ptr < |succ| && x != succ[x].ptr
    requires var y := succ[x].ptr; succ[y] == SNIL && pred[y].m && pred[y].ptr != 0
    ensures Cascade(succ, pred, x, succ[x], fuel) == Stuck
    decreases fuel
  {
    var y := succ[x].ptr;
    assert pred[y := PWord(pred[y].ptr, true)] == pred;
    if fuel > 1 {
      assert Aid(succ, pred, x, y, fuel - 1) == Aided(succ, pred, pred[y].ptr, SNIL);
      FoundForever(succ, pred, x, fuel - 1);
    }
  }

  /**
   * The words that `MarkedNeighbours` comes to are such words. Completing the run of the two nodes
   * from the head on never ends: node 3 is cut off though node 2 names it, and node 2 is asked for
   * what is behind it for ever.
   */
  lemma NeverCompleted(fuel: nat)
    ensures var succ := [SNIL, SWord(2, true, false), SWord(3, true, true), SWord(1, false, true)];
      var was := [PNIL, PWord(3, false), PWord(1, true), PWord(2, true)];
      var pred, l := was[3 := PWord(1, true)], Line([1, 2, 3, 1], {2, 3}, map[], 0);
      && Spells(succ, was, l, 1) && Strayed(was, pred, l) && Aid(succ, pred, 1, 2, fuel) == Stuck
  {
    var succ := [SNIL, SWord(2, true, false), SWord(3, true, true), SWord(1, false, true)];
    var was := [PNIL, PWord(3, false), PWord(1, true), PWord(2, true)];
    var pred, l := was[3 := PWord(1, true)], Line([1, 2, 3, 1], {2, 3}, map[], 0);
    SmallLine(succ, was, l);
    PlaceAt(l.nodes, 1, 4, 2);
    assert l.nodes[2] == 3 && l.nodes[0] == 1;
    assert Strays(was, pred, l, 3);
    NeverEnds(succ, pred, fuel);
  }

  lemma NeverEnds(succ: seq<SWord>, pred: seq<PWord>, fuel: nat)
    requires |succ| == |pred| == 4 && succ[1] == SWord(2, true, false)
    requires succ[2] == SWord(3, true, true) && succ[3] == SWord(1, false, true)
    requires pred[1] == PWord(3, false) && pred[2] == PWord(1, true) && pred[3] == PWord(1, true)
    ensures Aid(succ, pred, 1, 2, fuel) == Stuck
  {
    assert pred[2 := PWord(1, true)] == pred && pred[3 := PWord(1, true)] == pred;
    assert succ[2 := SWord(3, true, true)] == succ && succ[3 := SWord(1, false, true)] == succ;
    if fuel > 1 {
      var o := FirstInner(succ, pred, fuel - 2);
      if o.Aided? {
        BackToItself(o.succ, o.pred, fuel - 2);
      }
      assert Cascade(succ, pred, 2, succ[2], fuel - 1) == Stuck;
    }
  }

  lemma FirstInner(succ: seq<SWord>, pred: seq<PWord>, fuel: nat) returns (o: Aided)
    requires |succ| == |pred| == 4 && succ[1] == SWord(2, true, false)
    requires succ[3] == SWord(1, false, true) && pred[1] == PWord(3, false) && pred[3] == PWord(1, true)
    ensures o == Aid(succ, pred, 2, 3, fuel)
    ensures o.Aided? ==>
      o.succ == succ[3 := SNIL] && o.pred == pred[1 := PWord(1, false)] && o.rb == SWord(2, true, false)
  {
    assert pred[3 := PWord(1, true)] == pred && succ[3 := SWord(1, false, true)] == succ;
    o := Aid(succ, pred, 2, 3, fuel);
  }

  lemma BackToItself(succ: seq<SWord>, pred: seq<PWord>, fuel: nat)
    requires |succ| == |pred| == 4 && succ[2] == SWord(3, true, true) && succ[3] == SNIL
    requires pred[2] == PWord(1, true) && pred[3] == PWord(1, true)
    ensures Cascade(succ, pred, 2, SWord(2, true, false), fuel) == Stuck
  {
    assert pred[2 := PWord(1, true)] == pred && succ[2 := SWord(3, true, true)] == succ;
    if fuel > 1 {
      FoundForever(succ, pred, 2, fuel - 2);
      assert Aid(succ, pred, 2, 2, fuel - 1) == Stuck;
    }
  }
}
