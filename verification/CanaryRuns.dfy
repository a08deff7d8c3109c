/** One capture to which nothing happens: it goes all the way, and what it leaves behind is exactly the claim and the receipt. */
module CanaryRuns {
  import opened Filesystem
  import opened Canary

  /** One call stepping alone. */
  function Alone(fs: Fs, c: Call, inputs: seq<Input>): (Fs, Call)
    decreases |inputs|
  {
    if inputs == [] then (fs, c)
    else
      var (g, d) := CallStep(fs, c, inputs[0]);
      Alone(g, d, inputs[1..])
  }

  lemma {:induction false} AloneStep(fs: Fs, c: Call, x: Input, rest: seq<Input>)
    ensures Alone(fs, c, [x] + rest) == (var (g, d) := CallStep(fs, c, x); Alone(g, d, rest))
  {
  }

  lemma {:induction false} AloneConcat(fs: Fs, c: Call, a: seq<Input>, b: seq<Input>)
    ensures Alone(fs, c, a + b) == (var (g, d) := Alone(fs, c, a); Alone(g, d, b))
    decreases |a|
  {
    hide CallStep;
    if a == [] {
      assert a + b == b;
    } else {
      var (g, d) := CallStep(fs, c, a[0]);
      AloneConcat(g, d, a[1..], b);
      assert (a + b)[1..] == a[1..] + b;
    }
  }

  const EMPTY := Fs(1, map[], map[], {})

  function Claimed(marker: seq<int>): Fs {
    Fs(3, map[1 := File(marker, true)], map[MARKER := 1, SLOT := 2], {})
  }

  function Sealed(marker: seq<int>, blob: seq<int>): Fs {
    Fs(4, map[1 := File(marker, true), 3 := File(blob, true)], map[MARKER := 1, SLOT := 2, Receipt(2) := 3], {})
  }

  lemma {:induction false} NamesDiffer(slot: nat)
    ensures MARKER != SLOT && Pending(slot) != Receipt(slot)
    ensures slot != ROOT ==> Pending(slot) != MARKER && Pending(slot) != SLOT && Receipt(slot) != MARKER && Receipt(slot) != SLOT
  {
    assert |".slot.claimed"| != |"slot"| && |"receipt.json.pending"| != |"receipt.json"|;
  }

  /** Equal component by component. */
  predicate Same(g: Fs, f: Fs) {
    g.next == f.next && g.files == f.files && g.live == f.live && g.shadow == f.shadow
  }

  lemma {:induction false} ClaimQuietly(c: Call, x: Input)
    requires c.pc == Start && !x.fails
    ensures Alone(EMPTY, c, [x, x, x]) ==
            (Fs(2, map[1 := File(x.data, true)], map[MARKER := 1], {(MARKER, Gone)}), c.(pc := SyncRootForMarker))
  {
    hide CallStep, Alone;
    var c1, c2 := c.(pc := WriteMarker(1)), c.(pc := SyncMarker(1));
    var f1 := Fs(2, map[1 := File([], false)], map[MARKER := 1], {(MARKER, Gone)});
    var f2 := Fs(2, map[1 := File(x.data, false)], map[MARKER := 1], {(MARKER, Gone)});
    var f3 := Fs(2, map[1 := File(x.data, true)], map[MARKER := 1], {(MARKER, Gone)});
    assert CallStep(EMPTY, c, x) == (f1, c1) by {
      QuietClaimStep(EMPTY, c, x);
      assert Same(ClaimStep(EMPTY, c, x).0, f1);
    }
    assert CallStep(f1, c1, x) == (f2, c2) by {
      QuietClaimStep(f1, c1, x);
      assert [] + x.data == x.data;
      assert Same(ClaimStep(f1, c1, x).0, f2);
    }
    assert CallStep(f2, c2, x) == (f3, c.(pc := SyncRootForMarker)) by {
      QuietClaimStep(f2, c2, x);
      assert Same(ClaimStep(f2, c2, x).0, f3);
    }
    ThreeSteps(EMPTY, c, x);
  }

  lemma {:induction false} ThreeSteps(fs: Fs, c: Call, x: Input)
    ensures var s1 := CallStep(fs, c, x);
            var s2 := CallStep(s1.0, s1.1, x);
            Alone(fs, c, [x, x, x]) == CallStep(s2.0, s2.1, x)
  {
    hide CallStep;
    assert [x, x, x] == [x] + [x, x] && [x, x] == [x] + [x];
    var s1 := CallStep(fs, c, x);
    var s2 := CallStep(s1.0, s1.1, x);
    AloneStep(fs, c, x, [x, x]);
    AloneStep(s1.0, s1.1, x, [x]);
    OneStep(s2.0, s2.1, x);
  }

  lemma {:induction false} QuietClaimStep(fs: Fs, c: Call, x: Input)
    requires !x.fails && (c.pc.Start? || Claiming(c.pc))
    ensures CallStep(fs, c, x) == ClaimStep(fs, c, x)
  {
  }

  lemma {:induction false} SlotQuietly(c: Call, x: Input)
    requires c.pc == SyncRootForMarker && !x.fails
    ensures Alone(Fs(2, map[1 := File(x.data, true)], map[MARKER := 1], {(MARKER, Gone)}), c, [x, x, x] + [x]) ==
            (Claimed(x.data), c.(pc := Acquire(2)))
  {
    hide CallStep, Alone;
    NamesDiffer(2);
    var c1, c2, c3 := c.(pc := MakeSlot), c.(pc := SyncRootForSlot), c.(pc := OpenSlot);
    var f0 := Fs(2, map[1 := File(x.data, true)], map[MARKER := 1], {(MARKER, Gone)});
    var f1 := Fs(2, map[1 := File(x.data, true)], map[MARKER := 1], {});
    var f2 := Fs(3, map[1 := File(x.data, true)], map[MARKER := 1, SLOT := 2], {(SLOT, Gone)});
    assert CallStep(f0, c, x) == (f1, c1) by {
      QuietClaimStep(f0, c, x);
      assert Same(ClaimStep(f0, c, x).0, f1);
    }
    assert CallStep(f1, c1, x) == (f2, c2) by {
      QuietClaimStep(f1, c1, x);
      assert Same(ClaimStep(f1, c1, x).0, f2);
    }
    assert CallStep(f2, c2, x) == (Claimed(x.data), c3) by {
      QuietClaimStep(f2, c2, x);
      assert Same(ClaimStep(f2, c2, x).0, Claimed(x.data));
    }
    assert CallStep(Claimed(x.data), c3, x) == (Claimed(x.data), c.(pc := Acquire(2))) by {
      QuietClaimStep(Claimed(x.data), c3, x);
      assert Same(ClaimStep(Claimed(x.data), c3, x).0, Claimed(x.data));
    }
    ThreeSteps(f0, c, x);
    AloneConcat(f0, c, [x, x, x], [x]);
    OneStep(Claimed(x.data), c3, x);
  }

  lemma {:induction false} OneStep(fs: Fs, c: Call, x: Input)
    ensures Alone(fs, c, [x]) == CallStep(fs, c, x)
  {
    hide CallStep;
    assert [x][1..] == [];
  }

  lemma {:induction false} QuietReceiptStep(fs: Fs, c: Call, x: Input)
    requires !x.fails && !c.pc.Start? && !Claiming(c.pc) && !c.pc.Acquire?
    ensures CallStep(fs, c, x) == ReceiptStep(fs, c, x)
  {
  }

  function StagedFs(marker: seq<int>, blob: seq<int>): Fs {
    Fs(4, map[1 := File(marker, true), 3 := File(blob, true)], map[MARKER := 1, SLOT := 2, Pending(2) := 3], {})
  }

  lemma {:induction false} StageQuietly(c: Call, marker: seq<int>, x: Input)
    requires c.pc == Stage(2) && !x.fails
    ensures Alone(Claimed(marker), c, [x, x, x] + [x]) == (StagedFs(marker, c.blob), c.(pc := Publish(2, 3)))
  {
    hide CallStep, Alone;
    NamesDiffer(2);
    var live := map[MARKER := 1, SLOT := 2, Pending(2) := 3];
    var c1, c2, c3 := c.(pc := WriteStaged(2, 3)), c.(pc := SyncStaged(2, 3)), c.(pc := SyncSlotStaged(2, 3));
    var f1 := Fs(4, map[1 := File(marker, true), 3 := File([], false)], live, {(Pending(2), Gone)});
    var f2 := Fs(4, map[1 := File(marker, true), 3 := File(c.blob, false)], live, {(Pending(2), Gone)});
    var f3 := Fs(4, map[1 := File(marker, true), 3 := File(c.blob, true)], live, {(Pending(2), Gone)});
    assert CallStep(Claimed(marker), c, x) == (f1, c1) by {
      QuietReceiptStep(Claimed(marker), c, x);
      assert Same(ReceiptStep(Claimed(marker), c, x).0, f1);
    }
    assert CallStep(f1, c1, x) == (f2, c2) by {
      QuietReceiptStep(f1, c1, x);
      assert [] + c.blob == c.blob;
      assert Same(ReceiptStep(f1, c1, x).0, f2);
    }
    assert CallStep(f2, c2, x) == (f3, c3) by {
      QuietReceiptStep(f2, c2, x);
      assert Same(ReceiptStep(f2, c2, x).0, f3);
    }
    assert CallStep(f3, c3, x) == (StagedFs(marker, c.blob), c.(pc := Publish(2, 3))) by {
      QuietReceiptStep(f3, c3, x);
      assert Same(ReceiptStep(f3, c3, x).0, StagedFs(marker, c.blob));
    }
    ThreeSteps(Claimed(marker), c, x);
    AloneConcat(Claimed(marker), c, [x, x, x], [x]);
    OneStep(f3, c3, x);
  }

  lemma {:induction false} PublishQuietly(c: Call, marker: seq<int>, x: Input)
    requires c.pc == Publish(2, 3) && !x.fails
    ensures Alone(StagedFs(marker, c.blob), c, [x, x, x] + [x]) == (Sealed(marker, c.blob), c.(pc := Returned(2, 3)))
  {
    hide CallStep, Alone;
    NamesDiffer(2);
    var files := map[1 := File(marker, true), 3 := File(c.blob, true)];
    var c1, c2, c3 := c.(pc := Unstage(2, 3)), c.(pc := SyncSlotPublished(2, 3)), c.(pc := SyncRootPublished(2, 3));
    var f1 := Fs(4, files, map[MARKER := 1, SLOT := 2, Pending(2) := 3, Receipt(2) := 3], {(Receipt(2), Gone)});
    var f2 := Fs(4, files, map[MARKER := 1, SLOT := 2, Receipt(2) := 3], {(Receipt(2), Gone), (Pending(2), At(3))});
    assert CallStep(StagedFs(marker, c.blob), c, x) == (f1, c1) by {
      QuietReceiptStep(StagedFs(marker, c.blob), c, x);
      assert Same(ReceiptStep(StagedFs(marker, c.blob), c, x).0, f1);
    }
    assert CallStep(f1, c1, x) == (f2, c2) by {
      QuietReceiptStep(f1, c1, x);
      assert Same(ReceiptStep(f1, c1, x).0, f2);
    }
    assert CallStep(f2, c2, x) == (Sealed(marker, c.blob), c3) by {
      QuietReceiptStep(f2, c2, x);
      assert Same(ReceiptStep(f2, c2, x).0, Sealed(marker, c.blob));
    }
    assert CallStep(Sealed(marker, c.blob), c3, x) == (Sealed(marker, c.blob), c.(pc := Returned(2, 3))) by {
      QuietReceiptStep(Sealed(marker, c.blob), c3, x);
      assert Same(ReceiptStep(Sealed(marker, c.blob), c3, x).0, Sealed(marker, c.blob));
    }
    ThreeSteps(StagedFs(marker, c.blob), c, x);
    AloneConcat(StagedFs(marker, c.blob), c, [x, x, x], [x]);
    OneStep(Sealed(marker, c.blob), c3, x);
  }

  function QuietInputs(x: Input, y: Input): seq<Input> {
    (([x, x, x] + ([x, x, x] + [x])) + [y]) + (([x, x, x] + [x]) + ([x, x, x] + [x]))
  }

  /**
   A call to which nothing happens returns, in the window or out of it: the marker, the slot and the complete receipt
   are there, synced and durable, nothing else is, and the getter ran exactly if the call was in its window.
  */
  lemma {:induction false} QuietCallReturns(x: Input, y: Input)
    requires !x.fails && !y.fails
    ensures Alone(EMPTY, Call(Start, [], 0, false), QuietInputs(x, y)) ==
            (Sealed(x.data, y.data), Call(Returned(2, 3), y.data, if y.inWindow then 1 else 0, true))
  {
    hide CallStep, Alone;
    var c := Call(Start, [], 0, false);
    var d := Call(Stage(2), y.data, if y.inWindow then 1 else 0, true);
    var claim, make, write := [x, x, x], [x, x, x] + [x], [x, x, x] + [x];
    ClaimQuietly(c, x);
    SlotQuietly(c.(pc := SyncRootForMarker), x);
    AloneConcat(EMPTY, c, claim, make);
    AcquireQuietly(Claimed(x.data), c.(pc := Acquire(2)), y);
    AloneConcat(EMPTY, c, claim + make, [y]);
    StageQuietly(d, x.data, x);
    PublishQuietly(d.(pc := Publish(2, 3)), x.data, x);
    AloneConcat(Claimed(x.data), d, write, write);
    AloneConcat(EMPTY, c, (claim + make) + [y], write + write);
  }

  lemma {:induction false} AcquireQuietly(fs: Fs, c: Call, y: Input)
    requires c.pc.Acquire? && !y.fails
    ensures Alone(fs, c, [y]) ==
            (fs, Call(Stage(c.pc.slot), y.data, c.runs + (if y.inWindow then 1 else 0), true))
  {
    OneStep(fs, c, y);
    hide Alone;
  }

  function Acts(inputs: seq<Input>): seq<Event> {
    if inputs == [] then [] else [Act(0, inputs[0])] + Acts(inputs[1..])
  }

  /** A single call stepping alone is a run of the protocol. */
  lemma {:induction false} AloneIsRun(fs: Fs, c: Call, inputs: seq<Input>)
    ensures var (g, d) := Alone(fs, c, inputs); Run(World(fs, [c]), Acts(inputs)) == World(g, [d])
    decreases |inputs|
  {
    hide CallStep;
    if inputs != [] {
      var (g, d) := CallStep(fs, c, inputs[0]);
      assert [c][0 := d] == [d];
      assert Step(World(fs, [c]), Act(0, inputs[0])) == World(g, [d]);
      assert Acts(inputs)[1..] == Acts(inputs[1..]);
      AloneIsRun(g, d, inputs[1..]);
    }
  }

  /** A call goes on to publish only when its staged file and the entry of it are durable. */
  lemma {:induction false} StagedBeforePublished(fs: Fs, c: Call, x: Input)
    requires CallInv(fs, c) && !c.pc.Publish?
    ensures var (g, d) := CallStep(fs, c, x);
            d.pc.Publish? ==>
              && Kept(g, Pending(d.pc.slot)) && g.live[Pending(d.pc.slot)] == d.pc.fd
              && Staged(g, d.pc.fd, d.blob, true)
  {
  }
}
