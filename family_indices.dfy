/** The standalone resolver `QueueFamilyIndices` (QueueFamilyIndices.java):
    three roles (graphics, present, transfer) kept in static fields that are
    never reset, a shortcut for a device with a single family, a scan that
    remembers the first transfer-capable and the first compute-capable family
    as fallback candidates and stops once the three roles are set, and the
    `hasDedicatedTransferQueue` flag.

    The incoming values of the static fields are an explicit pre-state
    (`pre`); `Initial` is the state of a fresh class. */
module FamilyIndices {
  import opened Families

  /** The static fields `graphicsFamily`, `presentFamily`, `transferFamily`
      and `hasDedicatedTransferQueue`. */
  datatype Fields = Fields(graphics: int, present: int, transfer: int, dedicated: bool) {

    predicate IsComplete() {
      graphics != IGNORED && present != IGNORED && transfer != IGNORED
    }

    predicate IsSuitable() {
      graphics != IGNORED && present != IGNORED
    }

    /** Each role's family once, in the order graphics, present, transfer of
        first appearance. */
    function Unique(): (r: seq<int>)
      ensures NoDuplicates(r) && 1 <= |r| <= 3
      ensures forall x :: x in r <==> x in [graphics, present, transfer]
      ensures forall i, j :: 0 <= i < j < |r| ==>
        IndexOf([graphics, present, transfer], r[i]) < IndexOf([graphics, present, transfer], r[j])
      ensures r[0] == graphics
      ensures IsComplete() <==> IGNORED !in r
    {
      var all := [graphics, present, transfer];
      assert graphics in all;
      Distinct(all)
    }

    /** The graphics and present families, in that order. */
    function Array(): (r: seq<int>)
      ensures |r| == 2 && r[0] == graphics && r[1] == present
      ensures IsSuitable() <==> IGNORED !in r
    {
      [graphics, present]
    }
  }

  /** The static initialisers: every role `VK_QUEUE_FAMILY_IGNORED`, no
      dedicated transfer queue. */
  const Initial := Fields(IGNORED, IGNORED, IGNORED, false)

  /** The three `RuntimeException`s the resolver can throw. */
  datatype IndicesError = NoTransfer | NoGraphics | NoPresent

  /** What a call leaves behind: the static fields, and the returned boolean
      or the exception. */
  datatype Outcome = Outcome(fields: Fields, result: Result<bool, IndicesError>)

  /** The state of the loop: the static fields and the two local fallback
      candidates. */
  datatype ScanState = ScanState(fields: Fields, fallbackTransfer: int, fallbackCompute: int)

  /** One pass of the loop body for family `i`. */
  function Step(st: ScanState, f: Fam, i: int): ScanState {
    var graphics := if IsGraphics(f) then i else st.fields.graphics;
    var present := if f.present then i else st.fields.present;
    var transfer := if IsDedicatedTransfer(f) then i else st.fields.transfer;
    var fallbackTransfer := if IsTransfer(f) && st.fallbackTransfer == IGNORED then i else st.fallbackTransfer;
    var transfer' := if IsTransfer(f) && !IsCompute(f) then i else transfer;
    var fallbackCompute := if IsCompute(f) && st.fallbackCompute == IGNORED then i else st.fallbackCompute;
    var transfer'' := if IsCompute(f) && !IsGraphics(f) then i else transfer';
    ScanState(Fields(graphics, present, transfer'', st.fields.dedicated), fallbackTransfer, fallbackCompute)
  }

  /** The loop from family `i` on, leaving it after the first pass that makes
      the fields complete; also returns how many families were scanned. */
  function Scan(fams: seq<Fam>, i: nat, st: ScanState): (r: (ScanState, nat))
    requires i <= |fams|
    ensures i <= r.1 <= |fams|
    decreases |fams| - i
  {
    if i == |fams| then (st, i)
    else
      var next := Step(st, fams[i], i);
      if next.fields.IsComplete() then (next, i + 1) else Scan(fams, i + 1, next)
  }

  /** The state the loop starts from: the incoming static fields, no candidates. */
  function Start(pre: Fields): ScanState {
    ScanState(pre, IGNORED, IGNORED)
  }

  /** The number of families the loop looks at. */
  function Scanned(fams: seq<Fam>, pre: Fields): (n: nat)
    ensures n <= |fams|
  {
    Scan(fams, 0, Start(pre)).1
  }

  /** `findQueueFamilies` on a device with the families `fams`, entered with
      the static fields `pre`. */
  function Resolve(fams: seq<Fam>, pre: Fields): Outcome {
    if |fams| == 1 then Outcome(Fields(0, 0, 0, pre.dedicated), Ok(true))
    else Finish(Scan(fams, 0, Start(pre)).0)
  }

  /** What follows the loop: the transfer fallbacks (first transfer-capable,
      then first compute-capable, then graphics), the present fallbacks
      (first compute-capable, then graphics), `hasDedicatedTransferQueue`,
      then the checks that throw. */
  function Finish(st: ScanState): Outcome {
    var graphics := st.fields.graphics;
    var transfer := OrElse(st.fields.transfer, OrElse(st.fallbackTransfer, OrElse(st.fallbackCompute, graphics)));
    var present := OrElse(st.fields.present, OrElse(st.fallbackCompute, graphics));
    var fields := Fields(graphics, present, transfer, graphics != transfer);
    var result :=
      if transfer == IGNORED then Err(NoTransfer)
      else if graphics == IGNORED then Err(NoGraphics)
      else if present == IGNORED then Err(NoPresent)
      else Ok(fields.IsComplete());
    Outcome(fields, result)
  }

  // ---------------------------------------------------------------------
  // The scan in closed form

  /** A family that makes the loop write `transferFamily`: transfer without
      graphics or compute, transfer without compute, or compute without graphics. */
  predicate SetsTransfer(f: Fam) {
    IsDedicatedTransfer(f) || (IsTransfer(f) && !IsCompute(f)) || (IsCompute(f) && !IsGraphics(f))
  }

  /** The loop state after scanning exactly the families `s`, entered with `pre`. */
  function Closed(s: seq<Fam>, pre: Fields): ScanState {
    ScanState(
      Fields(OrElse(LastWhere(s, IsGraphics), pre.graphics),
             OrElse(LastWhere(s, IsPresent), pre.present),
             OrElse(LastWhere(s, SetsTransfer), pre.transfer),
             pre.dedicated),
      FirstWhere(s, IsTransfer),
      FirstWhere(s, IsCompute))
  }

  lemma StepClosed(s: seq<Fam>, f: Fam, pre: Fields)
    ensures Step(Closed(s, pre), f, |s|) == Closed(s + [f], pre)
  {
  }

  lemma {:induction false} ScanFromClosed(fams: seq<Fam>, i: nat, pre: Fields)
    requires i <= |fams|
    ensures var r := Scan(fams, i, Closed(fams[..i], pre)); var n := r.1;
      r.0 == Closed(fams[..n], pre) &&
      (i < |fams| ==> i < n) &&
      (n == |fams| || Closed(fams[..n], pre).fields.IsComplete()) &&
      forall m :: i < m < n ==> !Closed(fams[..m], pre).fields.IsComplete()
    decreases |fams| - i
  {
    if i < |fams| {
      assert fams[..i + 1] == fams[..i] + [fams[i]];
      StepClosed(fams[..i], fams[i], pre);
      if !Closed(fams[..i + 1], pre).fields.IsComplete() {
        ScanFromClosed(fams, i + 1, pre);
      }
    }
  }

  /** The loop looks at the families up to the first one after which the
      three roles are set (or at all of them). There graphics, present and
      transfer are the last family of the scanned ones that wrote them (or
      keep their incoming values), and the two fallback candidates are the
      lowest-index transfer-capable and compute-capable families scanned. */
  lemma ScanStopsWhenComplete(fams: seq<Fam>, pre: Fields)
    ensures var n := Scanned(fams, pre);
      Scan(fams, 0, Start(pre)).0 == Closed(fams[..n], pre) &&
      (0 < |fams| ==> 0 < n) &&
      (n == |fams| || Closed(fams[..n], pre).fields.IsComplete()) &&
      forall m :: 0 < m < n ==> !Closed(fams[..m], pre).fields.IsComplete()
  {
    assert fams[..0] == [];
    assert Closed([], pre) == Start(pre);
    ScanFromClosed(fams, 0, pre);
  }

  /** From a fresh state the loop stops once the scanned families include a
      graphics family, a family with present support and a family that
      writes `transferFamily`; a role that some family can fill is already
      filled by then. */
  lemma FreshScanFindsEveryRole(fams: seq<Fam>)
    ensures var s := fams[..Scanned(fams, Initial)];
      (Any(fams, IsGraphics) <==> Any(s, IsGraphics)) &&
      (Any(fams, IsPresent) <==> Any(s, IsPresent)) &&
      (Any(fams, SetsTransfer) <==> Any(s, SetsTransfer))
  {
    var n := Scanned(fams, Initial);
    ScanStopsWhenComplete(fams, Initial);
    if n == |fams| {
      WholePrefix(fams);
    }
    var s := fams[..n];
    if Any(s, IsGraphics) { FirstWhereOfPrefix(fams, n, IsGraphics); }
    if Any(s, IsPresent) { FirstWhereOfPrefix(fams, n, IsPresent); }
    if Any(s, SetsTransfer) { FirstWhereOfPrefix(fams, n, SetsTransfer); }
  }

  // ---------------------------------------------------------------------
  // What the resolver promises

  /** With exactly one family every role is family 0 and the call returns
      true, whatever the family reports and whatever the fields held; the
      dedicated-transfer flag keeps its incoming value. */
  lemma SingleFamilyShortcut(f: Fam, pre: Fields)
    ensures Resolve([f], pre) == Outcome(Fields(0, 0, 0, pre.dedicated), Ok(true))
  {
  }

  /** From a fresh state the call throws exactly when the device has no
      family, or several families none of which has the graphics bit. The
      transfer check comes first, so a device with neither transfer-capable
      nor compute-capable families gets the transfer message although
      graphics is missing too; otherwise the message is the graphics one. */
  lemma FreshFailsIff(fams: seq<Fam>)
    ensures Resolve(fams, Initial).result.Err? <==> |fams| != 1 && !Any(fams, IsGraphics)
    ensures Resolve(fams, Initial).result.Err? ==>
      Resolve(fams, Initial).result.error ==
        if !Any(fams, IsTransfer) && !Any(fams, IsCompute) then NoTransfer else NoGraphics
  {
    if |fams| != 1 {
      FreshScanFindsEveryRole(fams);
      ScanStopsWhenComplete(fams, Initial);
      if !Any(fams, IsGraphics) {
        WholePrefix(fams);
        var t := OrElse(LastWhere(fams, SetsTransfer), OrElse(FirstWhere(fams, IsTransfer), FirstWhere(fams, IsCompute)));
        if t != IGNORED {
          DedicatedTransferBits(fams[t]);
        }
      }
    }
  }

  /** Whatever the fields held, the multi-family path leaves
      `hasDedicatedTransferQueue` telling whether transfer and graphics
      differ, also when the call then throws; and a normal return yields
      `isComplete()`, which is then true. */
  lemma MultiFamilyOutcome(fams: seq<Fam>, pre: Fields)
    ensures |fams| != 1 ==>
      var out := Resolve(fams, pre);
      out.fields.dedicated == (out.fields.graphics != out.fields.transfer)
    ensures Resolve(fams, pre).result.Ok? ==>
      Resolve(fams, pre).result.value && Resolve(fams, pre).fields.IsComplete()
  {
  }

  /** From a fresh state a normal return yields true, with graphics, present
      and transfer set to families the device has, and
      `hasDedicatedTransferQueue` telling whether transfer and graphics differ. */
  lemma FreshSuccess(fams: seq<Fam>)
    ensures var out := Resolve(fams, Initial);
      out.result.Ok? ==>
        out.result.value &&
        out.fields.IsComplete() &&
        0 <= out.fields.graphics < |fams| && 0 <= out.fields.present < |fams| &&
        0 <= out.fields.transfer < |fams| &&
        (|fams| != 1 ==> out.fields.dedicated == (out.fields.graphics != out.fields.transfer))
  {
    if |fams| != 1 {
      ScanStopsWhenComplete(fams, Initial);
    }
  }

  /** From a fresh state the transfer family is the last scanned family that
      wrote `transferFamily`; failing that the first transfer-capable one
      scanned, then the first compute-capable one scanned, then graphics. So
      it can always do transfer or compute work, or it is the graphics family. */
  lemma FreshTransfer(fams: seq<Fam>)
    ensures var out := Resolve(fams, Initial); var s := fams[..Scanned(fams, Initial)];
      |fams| != 1 && out.result.Ok? ==>
        out.fields.transfer == OrElse(LastWhere(s, SetsTransfer),
          OrElse(FirstWhere(s, IsTransfer), OrElse(FirstWhere(s, IsCompute), out.fields.graphics))) &&
        0 <= out.fields.transfer < |fams| &&
        (IsTransfer(fams[out.fields.transfer]) || IsCompute(fams[out.fields.transfer]) ||
         out.fields.transfer == out.fields.graphics)
  {
    if |fams| != 1 {
      ScanStopsWhenComplete(fams, Initial);
      var n := Scanned(fams, Initial);
      var s := fams[..n];
      var t := OrElse(LastWhere(s, SetsTransfer), OrElse(FirstWhere(s, IsTransfer), FirstWhere(s, IsCompute)));
      if t != IGNORED {
        assert s[t] == fams[t];
        DedicatedTransferBits(fams[t]);
      }
    }
  }

  /** From a fresh state the present family is the last scanned family with
      present support; when no family of the device has present support it
      is the lowest-index compute-capable family, else the graphics family. */
  lemma FreshPresent(fams: seq<Fam>)
    ensures var out := Resolve(fams, Initial);
      |fams| != 1 && out.result.Ok? ==>
        0 <= out.fields.present < |fams| &&
        if Any(fams, IsPresent) then
          fams[out.fields.present].present &&
          out.fields.present == LastWhere(fams[..Scanned(fams, Initial)], IsPresent)
        else
          out.fields.present == OrElse(FirstWhere(fams, IsCompute), out.fields.graphics)
  {
    if |fams| != 1 {
      ScanStopsWhenComplete(fams, Initial);
      FreshScanFindsEveryRole(fams);
      var n := Scanned(fams, Initial);
      var s := fams[..n];
      var p := LastWhere(s, IsPresent);
      if p != IGNORED {
        assert s[p] == fams[p];
      }
      if !Any(fams, IsPresent) {
        WholePrefix(fams);
      }
    }
  }

  /** The fields are never reset: values left by an earlier call let a
      device without any graphics family pass, with a graphics index that
      is not a graphics family, although the same device fails from a fresh
      state. */
  lemma StaleFieldsHideMissingGraphics()
    ensures var fams := [Fam(TRANSFER_BIT, false), Fam(TRANSFER_BIT, false)];
      var out := Resolve(fams, Fields(0, 0, 0, false));
      out.result == Ok(true) && out.fields.graphics == 0 && !IsGraphics(fams[0]) &&
      Resolve(fams, Initial).result.Err?
  {
    var fams := [Fam(TRANSFER_BIT, false), Fam(TRANSFER_BIT, false)];
    var st := Step(Start(Fields(0, 0, 0, false)), fams[0], 0);
    assert st.fields == Fields(0, 0, 0, false);
    assert Scan(fams, 0, Start(Fields(0, 0, 0, false))) == (st, 1);
    FreshFailsIff(fams);
    assert !IsGraphics(fams[0]) && !IsGraphics(fams[1]);
  }

  /** Resolving the same device twice is enough for the stale fields to
      matter: two graphics families with present support and no transfer bit
      first give every role family 1, then graphics and present family 0,
      transfer still family 1, and a dedicated transfer queue on a family
      without the transfer bit. */
  lemma RepeatedCallReportsDedicatedTransfer()
    ensures var fams := [Fam(GRAPHICS_BIT, true), Fam(GRAPHICS_BIT, true)];
      var first := Resolve(fams, Initial);
      var second := Resolve(fams, first.fields);
      first == Outcome(Fields(1, 1, 1, false), Ok(true)) &&
      second == Outcome(Fields(0, 0, 1, true), Ok(true)) &&
      !IsTransfer(fams[second.fields.transfer])
  {
    var fams := [Fam(GRAPHICS_BIT, true), Fam(GRAPHICS_BIT, true)];
    var a := Step(Start(Initial), fams[0], 0);
    assert a == ScanState(Fields(0, 0, IGNORED, false), IGNORED, IGNORED);
    var b := Step(a, fams[1], 1);
    assert b == ScanState(Fields(1, 1, IGNORED, false), IGNORED, IGNORED);
    assert Scan(fams, 2, b) == (b, 2);
    assert Scan(fams, 0, Start(Initial)) == (b, 2);
    var c := Step(Start(Fields(1, 1, 1, false)), fams[0], 0);
    assert c == ScanState(Fields(0, 0, 1, false), IGNORED, IGNORED);
    assert Scan(fams, 0, Start(Fields(1, 1, 1, false))) == (c, 1);
  }

  // ---------------------------------------------------------------------
  // The static state

  /** The static part of `QueueFamilyIndices`. */
  class QueueFamilyIndices {
    var graphicsFamily: int
    var presentFamily: int
    var transferFamily: int
    var hasDedicatedTransferQueue: bool

    constructor ()
      ensures Value() == Initial
    {
      graphicsFamily, presentFamily, transferFamily := IGNORED, IGNORED, IGNORED;
      hasDedicatedTransferQueue := false;
    }

    function Value(): Fields
      reads this
    {
      Fields(graphicsFamily, presentFamily, transferFamily, hasDedicatedTransferQueue)
    }

    predicate IsComplete() reads this { Value().IsComplete() }
    predicate IsSuitable() reads this { Value().IsSuitable() }
    function Unique(): seq<int> reads this { Value().Unique() }
    function Array(): seq<int> reads this { Value().Array() }

    /** `QueueFamilyIndices.findQueueFamilies`: updates the static fields
        from whatever they held and returns `isComplete()`, or throws. */
    method FindQueueFamilies(physicalDevice: PhysicalDevice) returns (r: Result<bool, IndicesError>)
      modifies this
      ensures Value() == Resolve(physicalDevice.families, old(Value())).fields
      ensures r == Resolve(physicalDevice.families, old(Value())).result
    {
      var fams := physicalDevice.families;
      if |fams| == 1 {
        transferFamily, presentFamily, graphicsFamily := 0, 0, 0;
        return Ok(true);
      }

      var fallbackTransfer, fallbackCompute := ScanFamilies(fams);
      ghost var expected := Finish(ScanState(Value(), fallbackTransfer, fallbackCompute));

      if transferFamily == IGNORED {
        if fallbackTransfer != IGNORED {
          transferFamily := fallbackTransfer;
        } else if fallbackCompute != IGNORED {
          transferFamily := fallbackCompute;
        } else {
          transferFamily := graphicsFamily;
        }
      }

      if presentFamily == IGNORED {
        if fallbackCompute != IGNORED {
          presentFamily := fallbackCompute;
        } else {
          presentFamily := graphicsFamily;
        }
      }

      hasDedicatedTransferQueue := graphicsFamily != transferFamily;
      assert Value() == expected.fields;

      if transferFamily == IGNORED {
        return Err(NoTransfer);
      }
      if graphicsFamily == IGNORED {
        return Err(NoGraphics);
      }
      if presentFamily == IGNORED {
        return Err(NoPresent);
      }
      return Ok(IsComplete());
    }

    /** The loop of `findQueueFamilies`: visits the families in index order,
        updating the static fields and the two fallback candidates, and
        leaves as soon as `isComplete()` holds. */
    method ScanFamilies(fams: seq<Fam>) returns (fallbackTransfer: int, fallbackCompute: int)
      modifies this
      ensures ScanState(Value(), fallbackTransfer, fallbackCompute) == Scan(fams, 0, Start(old(Value()))).0
    {
      fallbackTransfer, fallbackCompute := IGNORED, IGNORED;
      var i := 0;
      while i < |fams|
        invariant 0 <= i <= |fams|
        invariant Scan(fams, i, ScanState(Value(), fallbackTransfer, fallbackCompute)) == Scan(fams, 0, Start(old(Value())))
      {
        ghost var before := ScanState(Value(), fallbackTransfer, fallbackCompute);
        var family := fams[i];

        if IsGraphics(family) {
          graphicsFamily := i;
        }

        if family.present {
          presentFamily := i;
        }

        if IsDedicatedTransfer(family) {
          transferFamily := i;
        }

        if IsTransfer(family) {
          if fallbackTransfer == IGNORED {
            fallbackTransfer := i;
          }
          if !IsCompute(family) {
            transferFamily := i;
          }
        }

        if IsCompute(family) {
          if fallbackCompute == IGNORED {
            fallbackCompute := i;
          }
          if !IsGraphics(family) {
            transferFamily := i;
          }
        }

        assert ScanState(Value(), fallbackTransfer, fallbackCompute) == Step(before, family, i);
        if IsComplete() {
          break;
        }
        i := i + 1;
      }
    }
  }
}
