/** The static queue-family resolver of `Queue` (Queue.java): four roles
    (graphics, present, transfer, compute), a scan in index order that stops
    once all four are set, fallbacks for present, transfer and compute that
    raise the static fallback flags, and the memoised lookup
    `getQueueFamilies`.

    The resolver is proved against `Resolve`, a function that follows the
    loop step by step; the lemmas then say what `Resolve` picks in terms of
    first and last matches over the families. */
module Queue {
  import opened Families

  /** The value held by a `Queue.QueueFamilyIndices` object. */
  datatype Indices = Indices(graphics: int, present: int, transfer: int, compute: int) {

    predicate IsComplete() {
      graphics != IGNORED && present != IGNORED && transfer != IGNORED && compute != IGNORED
    }

    predicate IsSuitable() {
      graphics != IGNORED && present != IGNORED
    }

    /** The families a device must create queues for: each role's family once,
        in the order graphics, present, transfer, compute of first appearance. */
    function Unique(): (r: seq<int>)
      ensures NoDuplicates(r) && 1 <= |r| <= 4
      ensures forall x :: x in r <==> x in [graphics, present, transfer, compute]
      ensures forall i, j :: 0 <= i < j < |r| ==>
        IndexOf([graphics, present, transfer, compute], r[i]) < IndexOf([graphics, present, transfer, compute], r[j])
      ensures r[0] == graphics
      ensures IsComplete() <==> IGNORED !in r
    {
      var all := [graphics, present, transfer, compute];
      assert graphics in all;
      Distinct(all)
    }

    /** The graphics and present families, in that order. */
    function Array(): (r: seq<int>)
      ensures |r| == 2 && r[0] == graphics && r[1] == present
      ensures IsSuitable() <==> IGNORED !in r
    {
      [graphics, present]
    }
  }

  /** A fresh `QueueFamilyIndices`: every role `VK_QUEUE_FAMILY_IGNORED`. */
  const Unset := Indices(IGNORED, IGNORED, IGNORED, IGNORED)

  /** The static flags `transferFallback`, `computeFallback`,
      `presentFallback` and `graphicsSupported`. */
  datatype Fallbacks = Fallbacks(transfer: bool, compute: bool, present: bool, graphicsSupported: bool)

  const NoFallbacks := Fallbacks(false, false, false, false)

  /** The four `RuntimeException`s the resolver can throw. */
  datatype QueueError = NoGraphics | NoTransfer | NoPresent | NoCompute

  /** What a call leaves behind: the returned indices or the exception, and
      the static flags (which are raised even when the call throws). */
  datatype Resolution = Resolution(result: Result<Indices, QueueError>, flags: Fallbacks)

  /** The logical device returned by `Vulkan.getVkDevice()`. */
  datatype Device = Device(physical: PhysicalDevice)

  /** One pass of the loop body for family `i`. */
  function Step(ix: Indices, f: Fam, i: int): Indices {
    var graphics := if IsGraphics(f) then i else ix.graphics;
    var present := if IsGraphics(f) && f.present then i else ix.present;
    var compute := if IsCompute(f) && ix.compute == IGNORED then i else ix.compute;
    var transfer := if IsDedicatedTransfer(f) && ix.transfer == IGNORED then i else ix.transfer;
    var present' := if present == IGNORED && f.present then i else present;
    Indices(graphics, present', transfer, compute)
  }

  /** The loop from family `i` on, leaving it after the first pass that makes
      the indices complete; also returns how many families were scanned. */
  function Scan(fams: seq<Fam>, i: nat, ix: Indices): (r: (Indices, nat))
    requires i <= |fams|
    ensures i <= r.1 <= |fams|
    decreases |fams| - i
  {
    if i == |fams| then (ix, i)
    else
      var next := Step(ix, fams[i], i);
      if next.IsComplete() then (next, i + 1) else Scan(fams, i + 1, next)
  }

  /** The number of families the resolver looks at. */
  function Scanned(fams: seq<Fam>): (n: nat)
    ensures n <= |fams|
  {
    Scan(fams, 0, Unset).1
  }

  /** `findQueueFamilies`: the scan, then the fallbacks and the checks that throw. */
  function Resolve(fams: seq<Fam>, flags: Fallbacks): Resolution {
    Finish(Scan(fams, 0, Unset).0, flags)
  }

  /** What follows the loop: the present, transfer and compute fallbacks in
      that order, each raising its flag, then the checks that throw. */
  function Finish(ix: Indices, flags: Fallbacks): Resolution {
    var present := OrElse(ix.present, OrElse(ix.compute, ix.graphics));
    var transfer := OrElse(ix.transfer, OrElse(ix.compute, ix.graphics));
    var compute := OrElse(ix.compute, ix.graphics);
    var flags' := Fallbacks(
      flags.transfer || ix.transfer == IGNORED,
      flags.compute || ix.compute == IGNORED,
      flags.present || ix.present == IGNORED,
      flags.graphicsSupported || ix.graphics != IGNORED);
    var result :=
      if ix.graphics == IGNORED then Err(NoGraphics)
      else if transfer == IGNORED then Err(NoTransfer)
      else if present == IGNORED then Err(NoPresent)
      else if compute == IGNORED then Err(NoCompute)
      else Ok(Indices(ix.graphics, present, transfer, compute));
    Resolution(result, flags')
  }

  // ---------------------------------------------------------------------
  // The scan in closed form

  predicate IsGraphicsPresent(f: Fam) { IsGraphics(f) && f.present }

  /** Present during the scan: the last graphics family with present support,
      else the first family of any kind with present support. */
  function PresentPick(s: seq<Fam>): int {
    OrElse(LastWhere(s, IsGraphicsPresent), FirstWhere(s, IsPresent))
  }

  /** The indices after scanning exactly the families `s`. */
  function Closed(s: seq<Fam>): Indices {
    Indices(LastWhere(s, IsGraphics), PresentPick(s), FirstWhere(s, IsDedicatedTransfer), FirstWhere(s, IsCompute))
  }

  /** The families `s` fill all four roles. */
  predicate Covers(s: seq<Fam>) {
    Any(s, IsGraphics) && Any(s, IsPresent) && Any(s, IsDedicatedTransfer) && Any(s, IsCompute)
  }

  lemma StepClosed(s: seq<Fam>, f: Fam)
    ensures Step(Closed(s), f, |s|) == Closed(s + [f])
  {
  }

  lemma CompleteIffCovers(s: seq<Fam>)
    ensures Closed(s).IsComplete() <==> Covers(s)
  {
  }

  lemma {:induction false} ScanFromClosed(fams: seq<Fam>, i: nat)
    requires i <= |fams|
    ensures var r := Scan(fams, i, Closed(fams[..i])); var n := r.1;
      r.0 == Closed(fams[..n]) &&
      (i < |fams| ==> i < n) &&
      (n == |fams| || Covers(fams[..n])) &&
      forall m :: i < m < n ==> !Covers(fams[..m])
    decreases |fams| - i
  {
    if i < |fams| {
      assert fams[..i + 1] == fams[..i] + [fams[i]];
      StepClosed(fams[..i], fams[i]);
      CompleteIffCovers(fams[..i + 1]);
      if !Closed(fams[..i + 1]).IsComplete() {
        ScanFromClosed(fams, i + 1);
      }
    }
  }

  /** The loop stops right after the shortest prefix that fills all four
      roles (or at the end of the list), and the indices it leaves are the
      first and last matches over exactly that prefix. */
  lemma ScanStopsAtFirstCover(fams: seq<Fam>)
    ensures var n := Scanned(fams);
      Scan(fams, 0, Unset).0 == Closed(fams[..n]) &&
      (n == |fams| || Covers(fams[..n])) &&
      forall m :: 0 <= m < n ==> !Covers(fams[..m])
  {
    assert fams[..0] == [];
    assert Closed([]) == Unset;
    ScanFromClosed(fams, 0);
  }

  /** A role that some family can fill is already filled within the scanned families. */
  lemma ScannedFindsEveryRole(fams: seq<Fam>)
    ensures var s := fams[..Scanned(fams)];
      (Any(fams, IsGraphics) <==> Any(s, IsGraphics)) &&
      (Any(fams, IsPresent) <==> Any(s, IsPresent)) &&
      (Any(fams, IsDedicatedTransfer) <==> Any(s, IsDedicatedTransfer)) &&
      (Any(fams, IsCompute) <==> Any(s, IsCompute))
  {
    var n := Scanned(fams);
    ScanStopsAtFirstCover(fams);
    if n == |fams| {
      WholePrefix(fams);
    }
    var s := fams[..n];
    if Any(s, IsGraphics) { FirstWhereOfPrefix(fams, n, IsGraphics); }
    if Any(s, IsPresent) { FirstWhereOfPrefix(fams, n, IsPresent); }
    if Any(s, IsDedicatedTransfer) { FirstWhereOfPrefix(fams, n, IsDedicatedTransfer); }
    if Any(s, IsCompute) { FirstWhereOfPrefix(fams, n, IsCompute); }
  }

  /** Compute and dedicated transfer are first matches, so the early stop
      never changes them: they are the lowest such family of the whole list. */
  lemma ScannedFirstMatches(fams: seq<Fam>)
    ensures var ix := Scan(fams, 0, Unset).0;
      ix.compute == FirstWhere(fams, IsCompute) &&
      ix.transfer == FirstWhere(fams, IsDedicatedTransfer) &&
      (ix.present == IGNORED <==> !Any(fams, IsPresent)) &&
      (ix.graphics == IGNORED <==> !Any(fams, IsGraphics))
  {
    var n := Scanned(fams);
    ScanStopsAtFirstCover(fams);
    ScannedFindsEveryRole(fams);
    var s := fams[..n];
    if Any(s, IsCompute) { FirstWhereOfPrefix(fams, n, IsCompute); }
    if Any(s, IsDedicatedTransfer) { FirstWhereOfPrefix(fams, n, IsDedicatedTransfer); }
    var a := LastWhere(s, IsGraphicsPresent);
    if a != IGNORED {
      assert IsPresent(s[a]);
    }
  }

  // ---------------------------------------------------------------------
  // What the resolver promises

  /** The call throws exactly when no family has the graphics bit, and then
      with the graphics message: every other role has a fallback. */
  lemma ResolveFailsIffNoGraphics(fams: seq<Fam>, flags: Fallbacks)
    ensures Resolve(fams, flags).result.Err? <==> !Any(fams, IsGraphics)
    ensures Resolve(fams, flags).result.Err? ==> Resolve(fams, flags).result.error == NoGraphics
  {
    ScannedFirstMatches(fams);
  }

  /** On normal return every role is set to the index of a family the device has. */
  lemma ResolveIsComplete(fams: seq<Fam>, flags: Fallbacks)
    ensures Resolve(fams, flags).result.Ok? ==>
      var ix := Resolve(fams, flags).result.value;
        ix.IsComplete() &&
        0 <= ix.graphics < |fams| && 0 <= ix.present < |fams| &&
        0 <= ix.transfer < |fams| && 0 <= ix.compute < |fams|
  {
    ScanStopsAtFirstCover(fams);
  }

  /** Graphics is a graphics-capable family: the last one among the families
      scanned before the loop stopped. */
  lemma ResolveGraphics(fams: seq<Fam>, flags: Fallbacks)
    ensures Resolve(fams, flags).result.Ok? ==>
      var ix := Resolve(fams, flags).result.value;
        0 <= ix.graphics < Scanned(fams) && IsGraphics(fams[ix.graphics]) &&
        ix.graphics == LastWhere(fams[..Scanned(fams)], IsGraphics) &&
        forall j :: ix.graphics < j < Scanned(fams) ==> !IsGraphics(fams[j])
  {
    ScanStopsAtFirstCover(fams);
    var n := Scanned(fams);
    var g := LastWhere(fams[..n], IsGraphics);
    if g != IGNORED {
      assert fams[..n][g] == fams[g];
      assert forall j :: g < j < n ==> fams[..n][j] == fams[j];
    }
  }

  /** Compute is the lowest-index compute family; without one it is the
      graphics family. */
  lemma ResolveCompute(fams: seq<Fam>, flags: Fallbacks)
    ensures Resolve(fams, flags).result.Ok? ==>
      var ix := Resolve(fams, flags).result.value;
        ix.compute == OrElse(FirstWhere(fams, IsCompute), ix.graphics) &&
        (Any(fams, IsCompute) ==> IsCompute(fams[ix.compute]))
  {
    ScannedFirstMatches(fams);
  }

  /** Transfer is the lowest-index family with the transfer bit and neither
      the graphics nor the compute bit; otherwise the compute family found by
      the scan, otherwise the graphics family. */
  lemma ResolveTransfer(fams: seq<Fam>, flags: Fallbacks)
    ensures Resolve(fams, flags).result.Ok? ==>
      var ix := Resolve(fams, flags).result.value;
        ix.transfer == OrElse(FirstWhere(fams, IsDedicatedTransfer), OrElse(FirstWhere(fams, IsCompute), ix.graphics)) &&
        (Any(fams, IsDedicatedTransfer) ==> IsTransfer(fams[ix.transfer]) && !IsGraphics(fams[ix.transfer]) && !IsCompute(fams[ix.transfer]))
  {
    ScannedFirstMatches(fams);
    var t := FirstWhere(fams, IsDedicatedTransfer);
    if t != IGNORED {
      DedicatedTransferBits(fams[t]);
    }
  }

  /** Present is a family that reported present support whenever any family
      did (the last graphics one of those scanned, else the first one);
      otherwise the compute family, otherwise the graphics family. */
  lemma ResolvePresent(fams: seq<Fam>, flags: Fallbacks)
    ensures Resolve(fams, flags).result.Ok? ==>
      var ix := Resolve(fams, flags).result.value;
        if Any(fams, IsPresent) then
          ix.present == PresentPick(fams[..Scanned(fams)]) && fams[ix.present].present
        else
          ix.present == OrElse(FirstWhere(fams, IsCompute), ix.graphics)
  {
    ScanStopsAtFirstCover(fams);
    ScannedFirstMatches(fams);
    var n := Scanned(fams);
    var p := PresentPick(fams[..n]);
    if p != IGNORED {
      assert fams[..n][p] == fams[p];
      var a := LastWhere(fams[..n], IsGraphicsPresent);
      if a != IGNORED {
        assert IsGraphicsPresent(fams[..n][a]);
      }
    }
  }

  /** Each fallback flag is raised exactly when no family can fill its role,
      `graphicsSupported` exactly when some family has the graphics bit, and
      no flag is ever cleared. */
  lemma ResolveFlags(fams: seq<Fam>, flags: Fallbacks)
    ensures var flags' := Resolve(fams, flags).flags;
      flags'.present == (flags.present || !Any(fams, IsPresent)) &&
      flags'.transfer == (flags.transfer || !Any(fams, IsDedicatedTransfer)) &&
      flags'.compute == (flags.compute || !Any(fams, IsCompute)) &&
      flags'.graphicsSupported == (flags.graphicsSupported || Any(fams, IsGraphics))
  {
    ScannedFirstMatches(fams);
  }

  /** Graphics, compute-only and transfer-only families at 0, 1 and 2 give
      each role its own family and no fallback. */
  lemma SeparateFamiliesExample()
    ensures Resolve([Fam(GRAPHICS_BIT, true), Fam(COMPUTE_BIT, false), Fam(TRANSFER_BIT, false)], NoFallbacks)
      == Resolution(Ok(Indices(0, 0, 2, 1)), Fallbacks(false, false, false, true))
  {
    var fams := [Fam(GRAPHICS_BIT, true), Fam(COMPUTE_BIT, false), Fam(TRANSFER_BIT, false)];
    assert Step(Unset, fams[0], 0) == Indices(0, 0, IGNORED, IGNORED);
    assert Step(Indices(0, 0, IGNORED, IGNORED), fams[1], 1) == Indices(0, 0, IGNORED, 1);
    assert Step(Indices(0, 0, IGNORED, 1), fams[2], 2) == Indices(0, 0, 2, 1);
    assert Scan(fams, 0, Unset) == Scan(fams, 1, Indices(0, 0, IGNORED, IGNORED));
    assert Scan(fams, 1, Indices(0, 0, IGNORED, IGNORED)) == Scan(fams, 2, Indices(0, 0, IGNORED, 1));
    assert Scan(fams, 2, Indices(0, 0, IGNORED, 1)) == (Indices(0, 0, 2, 1), 3);
  }

  /** A single family with every capability takes all four roles; transfer
      and only transfer is flagged as a fallback. */
  lemma UniversalFamilyExample()
    ensures Resolve([Fam(GRAPHICS_BIT | COMPUTE_BIT | TRANSFER_BIT, true)], NoFallbacks)
      == Resolution(Ok(Indices(0, 0, 0, 0)), Fallbacks(true, false, false, true))
  {
    var fams := [Fam(GRAPHICS_BIT | COMPUTE_BIT | TRANSFER_BIT, true)];
    assert !IsDedicatedTransfer(fams[0]);
    assert Step(Unset, fams[0], 0) == Indices(0, 0, IGNORED, 0);
    assert Scan(fams, 0, Unset) == (Indices(0, 0, IGNORED, 0), 1);
  }

  /** The early stop can leave graphics on an earlier family than the last
      graphics-capable one of the device. */
  lemma EarlyStopKeepsEarlierGraphics()
    ensures var fams := [Fam(GRAPHICS_BIT | COMPUTE_BIT, true), Fam(TRANSFER_BIT, false), Fam(GRAPHICS_BIT, false)];
      Resolve(fams, NoFallbacks).result == Ok(Indices(0, 0, 1, 0)) &&
      LastWhere(fams, IsGraphics) == 2
  {
    var fams := [Fam(GRAPHICS_BIT | COMPUTE_BIT, true), Fam(TRANSFER_BIT, false), Fam(GRAPHICS_BIT, false)];
    assert !IsDedicatedTransfer(fams[0]) && IsDedicatedTransfer(fams[1]);
    assert Step(Unset, fams[0], 0) == Indices(0, 0, IGNORED, 0);
    assert Step(Indices(0, 0, IGNORED, 0), fams[1], 1) == Indices(0, 0, 1, 0);
    assert Scan(fams, 0, Unset) == Scan(fams, 1, Indices(0, 0, IGNORED, 0));
    assert Scan(fams, 1, Indices(0, 0, IGNORED, 0)) == (Indices(0, 0, 1, 0), 2);
    assert IsGraphics(fams[2]);
  }

  // ---------------------------------------------------------------------
  // The heap objects

  /** `Queue.QueueFamilyIndices`: four public fields the resolver fills in. */
  class QueueFamilyIndices {
    var graphicsFamily: int
    var presentFamily: int
    var transferFamily: int
    var computeFamily: int

    constructor ()
      ensures Value() == Unset
    {
      graphicsFamily, presentFamily, transferFamily, computeFamily := IGNORED, IGNORED, IGNORED, IGNORED;
    }

    function Value(): Indices
      reads this
    {
      Indices(graphicsFamily, presentFamily, transferFamily, computeFamily)
    }

    predicate IsComplete() reads this { Value().IsComplete() }
    predicate IsSuitable() reads this { Value().IsSuitable() }
    function Unique(): seq<int> reads this { Value().Unique() }
    function Array(): seq<int> reads this { Value().Array() }
  }

  /** The static state of `Queue`: the fallback flags, the device captured by
      the first lookup, and the cached indices. */
  class QueueStatics {
    var transferFallback: bool
    var computeFallback: bool
    var presentFallback: bool
    var graphicsSupported: bool
    var device: Option<Device>
    var queueFamilyIndices: QueueFamilyIndices?

    constructor ()
      ensures Flags() == NoFallbacks && device == None && queueFamilyIndices == null
    {
      transferFallback, computeFallback, presentFallback, graphicsSupported := false, false, false, false;
      device := None;
      queueFamilyIndices := null;
    }

    function Flags(): Fallbacks
      reads this
    {
      Fallbacks(transferFallback, computeFallback, presentFallback, graphicsSupported)
    }

    /** `Queue.findQueueFamilies`: fills a fresh `QueueFamilyIndices` and
        raises the static flags; the flags stay raised when it throws. */
    method FindQueueFamilies(physicalDevice: PhysicalDevice) returns (r: Result<QueueFamilyIndices, QueueError>)
      modifies this
      ensures Flags() == Resolve(physicalDevice.families, old(Flags())).flags
      ensures device == old(device) && queueFamilyIndices == old(queueFamilyIndices)
      ensures r.Ok? ==> fresh(r.value) && Resolve(physicalDevice.families, old(Flags())).result == Ok(r.value.Value())
      ensures r.Err? ==> Resolve(physicalDevice.families, old(Flags())).result == Err(r.error)
    {
      var indices := new QueueFamilyIndices();
      ScanFamilies(physicalDevice.families, indices);
      ghost var scanned := indices.Value();
      ghost var expected := Finish(scanned, old(Flags()));
      assert expected == Resolve(physicalDevice.families, old(Flags()));

      if indices.presentFamily == IGNORED {
        presentFallback := true;
        indices.presentFamily := if indices.computeFamily != IGNORED then indices.computeFamily else indices.graphicsFamily;
      }

      if indices.transferFamily == IGNORED {
        transferFallback := true;
        indices.transferFamily := if indices.computeFamily != IGNORED then indices.computeFamily else indices.graphicsFamily;
      }

      if indices.computeFamily == IGNORED {
        computeFallback := true;
        indices.computeFamily := indices.graphicsFamily;
      }
      assert Flags() == expected.flags;
      assert expected.result == if indices.graphicsFamily == IGNORED then Err(NoGraphics) else Ok(indices.Value());

      if indices.graphicsFamily == IGNORED {
        return Err(NoGraphics);
      }
      if indices.transferFamily == IGNORED {
        return Err(NoTransfer);
      }
      if indices.presentFamily == IGNORED {
        return Err(NoPresent);
      }
      if indices.computeFamily == IGNORED {
        return Err(NoCompute);
      }
      return Ok(indices);
    }

    /** The loop of `findQueueFamilies`: visits the families in index order,
        updating `indices` and `graphicsSupported`, and leaves as soon as the
        indices are complete. */
    method ScanFamilies(fams: seq<Fam>, indices: QueueFamilyIndices)
      requires indices.Value() == Unset
      modifies this`graphicsSupported, indices
      ensures indices.Value() == Scan(fams, 0, Unset).0
      ensures graphicsSupported == (old(graphicsSupported) || indices.graphicsFamily != IGNORED)
    {
      var i := 0;
      while i < |fams|
        invariant 0 <= i <= |fams|
        invariant Scan(fams, i, indices.Value()) == Scan(fams, 0, Unset)
        invariant graphicsSupported == (old(graphicsSupported) || indices.graphicsFamily != IGNORED)
      {
        ghost var before := indices.Value();
        var family := fams[i];

        if IsGraphics(family) {
          indices.graphicsFamily := i;
          graphicsSupported := true;
          if family.present {
            indices.presentFamily := i;
          }
        }

        if IsCompute(family) && indices.computeFamily == IGNORED {
          indices.computeFamily := i;
        }

        if IsDedicatedTransfer(family) && indices.transferFamily == IGNORED {
          indices.transferFamily := i;
        }

        if indices.presentFamily == IGNORED {
          if family.present {
            indices.presentFamily := i;
          }
        }

        assert indices.Value() == Step(before, family, i);
        if indices.IsComplete() {
          break;
        }
        i := i + 1;
      }
    }

    /** `Queue.getQueueFamilies`: captures `Vulkan.getVkDevice()` (here
        `current`) on first use, resolves once, and from then on hands back
        the same cached object without resolving again. */
    method GetQueueFamilies(current: Device) returns (r: Result<QueueFamilyIndices, QueueError>)
      modifies this
      ensures device == if old(device).None? then Some(current) else old(device)
      ensures old(queueFamilyIndices) != null ==>
        r.Ok? && r.value == old(queueFamilyIndices) && queueFamilyIndices == old(queueFamilyIndices) && Flags() == old(Flags())
      ensures old(queueFamilyIndices) == null ==>
        var res := Resolve(device.value.physical.families, old(Flags()));
        Flags() == res.flags &&
        match r
        case Ok(q) => fresh(q) && res.result == Ok(q.Value()) && queueFamilyIndices == q
        case Err(e) => res.result == Err(e) && queueFamilyIndices == null
    {
      if device.None? {
        device := Some(current);
      }
      if queueFamilyIndices == null {
        r := FindQueueFamilies(device.value.physical);
        if r.Ok? {
          queueFamilyIndices := r.value;
        }
      } else {
        r := Ok(queueFamilyIndices);
      }
    }
  }

  /** Two lookups in a row: once the first has succeeded, the second returns
      the very same object, whatever device is current by then. */
  method RepeatedLookupReturnsCachedObject(statics: QueueStatics, first: Device, second: Device)
    returns (r1: Result<QueueFamilyIndices, QueueError>, r2: Result<QueueFamilyIndices, QueueError>)
    modifies statics
    ensures r1.Ok? ==> r2 == r1 && statics.queueFamilyIndices == r1.value
  {
    r1 := statics.GetQueueFamilies(first);
    r2 := statics.GetQueueFamilies(second);
  }
}
