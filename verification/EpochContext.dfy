/** Epoch arithmetic across the Dardanelles fork (epochctx/epochctx.go).

    Before the fork an epoch holds numDelegates * numSubEpochs blocks; from the epoch that contains
    dardanellesHeight on it holds numDelegates * numSubEpochsDardanelles blocks. */
module EpochContext {

  /** Settings that NewEpochCtx applies in order. */
  datatype Setting =
    | EnableDardanellesSubEpoch(height: nat, numSubEpochs: nat)
    | FairbankHeight(height: nat)

  datatype EpochCtx = EpochCtx(
    numCandidateDelegates: nat,
    numDelegates: nat,
    numSubEpochs: nat,
    numSubEpochsDardanelles: nat,
    dardanellesHeight: nat,
    dardanellesOn: bool,
    fairbankHeight: nat)
  {
    /** The numbers the arithmetic below divides by; zero would panic in the original. */
    predicate Divisors() {
      numDelegates > 0 && numSubEpochs > 0 && (dardanellesOn ==> numSubEpochsDardanelles > 0)
    }

    /** Blocks in an epoch before the fork epoch, and from the fork epoch on. */
    function OldLength(): nat { numDelegates * numSubEpochs }

    function NewLength(): nat { numDelegates * numSubEpochsDardanelles }

    /** The number of the epoch that a height belongs to. It recurses through GetEpochHeight at the fork. */
    function GetEpochNumber(height: nat): (n: nat)
      requires Divisors()
      ensures height == 0 ==> n == 0
      ensures height > 0 && (!dardanellesOn || height <= dardanellesHeight)
              ==> n == (height - 1) / numDelegates / numSubEpochs + 1
      decreases if !dardanellesOn || height <= dardanellesHeight then 0 else 3
    {
      if height == 0 then 0
      else if !dardanellesOn || height <= dardanellesHeight then
        SlotNonNegative(height - 1, numDelegates, numSubEpochs);
        (height - 1) / numDelegates / numSubEpochs + 1
      else
        var dardanellesEpoch := GetEpochNumber(dardanellesHeight);
        var dardanellesEpochHeight := GetEpochHeight(dardanellesEpoch);
        ForkStartNotAfter(this, dardanellesEpoch, dardanellesEpochHeight);
        SlotNonNegative(height - dardanellesEpochHeight, numDelegates, numSubEpochsDardanelles);
        dardanellesEpoch + (height - dardanellesEpochHeight) / numDelegates / numSubEpochsDardanelles
    }

    /** The first height of an epoch. */
    function GetEpochHeight(epochNum: nat): (h: nat)
      requires Divisors()
      ensures epochNum == 0 ==> h == 0
      ensures epochNum > 0 && (!dardanellesOn || epochNum <= ForkEpoch())
              ==> h == (epochNum - 1) * numDelegates * numSubEpochs + 1
      decreases if !dardanellesOn || epochNum <= ForkEpoch() then 1 else 2
    {
      if epochNum == 0 then 0
      else
        var dardanellesEpoch := GetEpochNumber(dardanellesHeight);
        if !dardanellesOn || epochNum <= dardanellesEpoch then
          (epochNum - 1) * numDelegates * numSubEpochs + 1
        else
          var dardanellesEpochHeight := GetEpochHeight(dardanellesEpoch);
          dardanellesEpochHeight + (epochNum - dardanellesEpoch) * numDelegates * numSubEpochsDardanelles
    }

    /** Closed form of GetEpochNumber(dardanellesHeight), needed to order the mutual recursion. */
    function ForkEpoch(): nat
      requires Divisors()
    {
      if dardanellesHeight == 0 then 0 else (dardanellesHeight - 1) / numDelegates / numSubEpochs + 1
    }

    function FairbankEffectiveHeight(): nat {
      fairbankHeight + numDelegates * numSubEpochsDardanelles
    }

    /** The fork height falls within the first NewLength() blocks of the epoch that contains it. */
    predicate ForkAligned()
      requires Divisors()
    {
      !dardanellesOn || dardanellesHeight == 0 || (dardanellesHeight - 1) % OldLength() < NewLength()
    }
  }

  /** NewEpochCtx: the candidate count is raised to the delegate count, then the settings are applied
      in order, so the last setting of each kind is the one in force. */
  method NewEpochCtx(numCandidateDelegates: nat, numDelegates: nat, numSubEpochs: nat, opts: seq<Setting>)
    returns (e: EpochCtx)
    ensures e.numDelegates == numDelegates && e.numSubEpochs == numSubEpochs
    ensures e.numCandidateDelegates >= numDelegates
    ensures numCandidateDelegates >= numDelegates ==> e.numCandidateDelegates == numCandidateDelegates
    ensures numCandidateDelegates < numDelegates ==> e.numCandidateDelegates == numDelegates
    ensures e.dardanellesOn <==> exists i :: 0 <= i < |opts| && opts[i].EnableDardanellesSubEpoch?
    ensures forall i :: 0 <= i < |opts| && opts[i].EnableDardanellesSubEpoch?
              && (forall j :: i < j < |opts| ==> !opts[j].EnableDardanellesSubEpoch?)
              ==> e.dardanellesHeight == opts[i].height && e.numSubEpochsDardanelles == opts[i].numSubEpochs
    ensures forall i :: 0 <= i < |opts| && opts[i].FairbankHeight?
              && (forall j :: i < j < |opts| ==> !opts[j].FairbankHeight?)
              ==> e.fairbankHeight == opts[i].height
  {
    e := EpochCtx(if numCandidateDelegates < numDelegates then numDelegates else numCandidateDelegates,
                  numDelegates, numSubEpochs, 0, 0, false, 0);
    ghost var start := e;
    for k := 0 to |opts|
      invariant e.numDelegates == numDelegates && e.numSubEpochs == numSubEpochs
      invariant e.numCandidateDelegates == start.numCandidateDelegates
      invariant e.dardanellesOn <==> exists i :: 0 <= i < k && opts[i].EnableDardanellesSubEpoch?
      invariant forall i :: 0 <= i < k && opts[i].EnableDardanellesSubEpoch?
                  && (forall j :: i < j < k ==> !opts[j].EnableDardanellesSubEpoch?)
                  ==> e.dardanellesHeight == opts[i].height && e.numSubEpochsDardanelles == opts[i].numSubEpochs
      invariant forall i :: 0 <= i < k && opts[i].FairbankHeight?
                  && (forall j :: i < j < k ==> !opts[j].FairbankHeight?)
                  ==> e.fairbankHeight == opts[i].height
    {
      match opts[k] {
        case EnableDardanellesSubEpoch(height, n) =>
          e := e.(dardanellesOn := true, numSubEpochsDardanelles := n, dardanellesHeight := height);
        case FairbankHeight(height) =>
          e := e.(fairbankHeight := height);
      }
    }
  }

  /* ---------- division ---------- */

  lemma DivUnique(a: int, n: int, q: int, r: int)
    requires a == n * q + r && 0 <= r < n
    ensures a / n == q && a % n == r
  {
    if a / n > q {
      assert n * (a / n) >= n * (q + 1) by { MulLe(n, q + 1, a / n); }
    } else if a / n < q {
      assert n * (a / n + 1) <= n * q by { MulLe(n, a / n + 1, q); }
    }
  }

  lemma MulLe(n: int, a: int, b: int)
    requires 0 <= n && a <= b
    ensures n * a <= n * b
  {
    assert n * b - n * a == n * (b - a);
  }

  lemma DivDiv(a: nat, b: nat, c: nat)
    requires b > 0 && c > 0
    ensures b * c > 0
    ensures a / b / c == a / (b * c)
  {
    var q, r := a / b, a % b;
    var x, y := q / c, q % c;
    NestedDivision(a, b, c, q, r, x, y);
    DivUnique(a, b * c, x, b * y + r);
  }

  lemma NestedDivision(a: int, b: int, c: int, q: int, r: int, x: int, y: int)
    requires a == b * q + r && 0 <= r < b
    requires q == c * x + y && 0 <= y < c
    ensures a == (b * c) * x + (b * y + r) && 0 <= b * y + r < b * c
  {
    assert b * (c * x + y) == (b * c) * x + b * y;
    MulLe(b, 0, y);
    MulLe(b, y, c - 1);
  }

  lemma StartNotAfter(height: nat, d: nat, s: nat, epoch: nat, start: nat)
    requires height > 0 && d > 0 && s > 0
    requires epoch == (height - 1) / d / s + 1
    requires start == (epoch - 1) * d * s + 1
    ensures start <= height
    ensures d * s > 0 && height - start == (height - 1) % (d * s)
  {
    DivDiv(height - 1, d, s);
    Regroup(epoch - 1, d, s);
  }

  /** What GetEpochNumber needs of its two recursive calls: the fork epoch starts no later than the fork. */
  lemma ForkStartNotAfter(e: EpochCtx, epoch: nat, start: nat)
    requires e.Divisors()
    requires epoch == e.ForkEpoch()
    requires epoch == 0 ==> start == 0
    requires epoch > 0 ==> start == (epoch - 1) * e.numDelegates * e.numSubEpochs + 1
    ensures start <= e.dardanellesHeight
  {
    if e.dardanellesHeight > 0 {
      StartNotAfter(e.dardanellesHeight, e.numDelegates, e.numSubEpochs, epoch, start);
    }
  }

  lemma SlotNonNegative(a: nat, d: nat, s: nat)
    requires d > 0 && s > 0
    ensures 0 <= a / d / s
  {}

  lemma Regroup(n: int, d: int, s: int)
    ensures n * d * s == (d * s) * n
  {}

  /* ---------- closed forms ---------- */

  /** GetEpochNumber and GetEpochHeight in closed form up to the fork. */
  lemma BeforeFork(e: EpochCtx, h: nat, n: nat)
    requires e.Divisors()
    ensures e.OldLength() > 0
    ensures h > 0 && (!e.dardanellesOn || h <= e.dardanellesHeight)
            ==> e.GetEpochNumber(h) == (h - 1) / e.OldLength() + 1
    ensures n > 0 && (!e.dardanellesOn || n <= e.ForkEpoch())
            ==> e.GetEpochHeight(n) == e.OldLength() * (n - 1) + 1
  {
    DivDiv(0, e.numDelegates, e.numSubEpochs);
    if h > 0 { DivDiv(h - 1, e.numDelegates, e.numSubEpochs); }
    if n > 0 { Regroup(n - 1, e.numDelegates, e.numSubEpochs); }
  }

  /** The fork epoch, its start, and how far the fork height lies into it. */
  lemma AtFork(e: EpochCtx)
    requires e.Divisors()
    ensures e.GetEpochNumber(e.dardanellesHeight) == e.ForkEpoch()
    ensures e.GetEpochHeight(e.ForkEpoch()) <= e.dardanellesHeight
    ensures e.OldLength() > 0
    ensures e.dardanellesHeight > 0
            ==> e.dardanellesHeight - e.GetEpochHeight(e.ForkEpoch()) == (e.dardanellesHeight - 1) % e.OldLength()
  {
    BeforeFork(e, 0, 0);
    if e.dardanellesHeight > 0 {
      StartNotAfter(e.dardanellesHeight, e.numDelegates, e.numSubEpochs, e.ForkEpoch(),
                    e.GetEpochHeight(e.ForkEpoch()));
    }
  }

  /** GetEpochNumber and GetEpochHeight in closed form past the fork. */
  lemma AfterFork(e: EpochCtx, h: nat, n: nat)
    requires e.Divisors() && e.dardanellesOn
    ensures e.NewLength() > 0
    ensures e.GetEpochHeight(e.ForkEpoch()) <= e.dardanellesHeight
    ensures h > e.dardanellesHeight
            ==> e.GetEpochNumber(h) == e.ForkEpoch() + (h - e.GetEpochHeight(e.ForkEpoch())) / e.NewLength()
    ensures n > e.ForkEpoch()
            ==> e.GetEpochHeight(n) == e.GetEpochHeight(e.ForkEpoch()) + e.NewLength() * (n - e.ForkEpoch())
  {
    AtFork(e);
    DivDiv(0, e.numDelegates, e.numSubEpochsDardanelles);
    var g := e.GetEpochHeight(e.ForkEpoch());
    if h > e.dardanellesHeight { DivDiv(h - g, e.numDelegates, e.numSubEpochsDardanelles); }
    if n > e.ForkEpoch() { Regroup(n - e.ForkEpoch(), e.numDelegates, e.numSubEpochsDardanelles); }
  }

  /* ---------- monotonicity ---------- */

  /** Epoch starts grow strictly with the epoch number, aligned fork or not. */
  lemma HeightStrictlyMonotone(e: EpochCtx, m: nat, n: nat)
    requires e.Divisors() && m < n
    ensures e.GetEpochHeight(m) < e.GetEpochHeight(n)
  {
    hide EpochCtx.GetEpochHeight, EpochCtx.GetEpochNumber, EpochCtx.ForkEpoch;
    BeforeFork(e, 0, m);
    BeforeFork(e, 0, n);
    var fork := e.ForkEpoch();
    if !e.dardanellesOn || n <= fork {
      if m > 0 { StrictlyMore(e.OldLength(), m - 1, n - 1); }
    } else {
      AfterFork(e, 0, m);
      AfterFork(e, 0, n);
      if m > fork {
        StrictlyMore(e.NewLength(), m - fork, n - fork);
      } else {
        StrictlyMore(e.NewLength(), 0, n - fork);
        if 0 < m { BeforeFork(e, 0, fork); MulLe(e.OldLength(), m - 1, fork - 1); }
      }
    }
  }

  lemma StrictlyMore(n: nat, a: int, b: int)
    requires n > 0 && a < b
    ensures n * a < n * b
  {
    MulLe(n, a + 1, b);
    assert n * (a + 1) == n * a + n;
  }

  /** A later height never has a smaller epoch number, aligned fork or not. */
  lemma NumberMonotone(e: EpochCtx, g: nat, h: nat)
    requires e.Divisors() && g <= h
    ensures e.GetEpochNumber(g) <= e.GetEpochNumber(h)
  {
    BeforeFork(e, g, 0);
    BeforeFork(e, h, 0);
    if 0 < g {
      if !e.dardanellesOn || h <= e.dardanellesHeight {
        DivMonotone(g - 1, h - 1, e.OldLength());
      } else {
        AfterFork(e, g, 0);
        AfterFork(e, h, 0);
        AtFork(e);
        var start := e.GetEpochHeight(e.ForkEpoch());
        DivMonotone(0, h - start, e.NewLength());
        if g <= e.dardanellesHeight {
          BeforeFork(e, e.dardanellesHeight, 0);
          DivMonotone(g - 1, e.dardanellesHeight - 1, e.OldLength());
        } else {
          DivMonotone(g - start, h - start, e.NewLength());
        }
      }
    }
  }

  lemma DivMonotone(a: nat, b: nat, n: nat)
    requires n > 0 && a <= b
    ensures 0 <= a / n <= b / n
  {
    if a / n > b / n { MulLe(n, b / n + 1, a / n); }
  }

  /* ---------- the Galois connection ---------- */

  ghost predicate Encloses(e: EpochCtx, h: nat)
    requires e.Divisors()
  {
    e.GetEpochHeight(e.GetEpochNumber(h)) <= h < e.GetEpochHeight(e.GetEpochNumber(h) + 1)
  }

  lemma AlignedEncloses(e: EpochCtx, h: nat)
    requires e.Divisors() && e.ForkAligned() && h > 0
    ensures Encloses(e, h)
  {
    if !e.dardanellesOn || h <= e.dardanellesHeight {
      EnclosesBeforeFork(e, h);
    } else {
      EnclosesAfterFork(e, h);
    }
  }

  lemma EnclosesBeforeFork(e: EpochCtx, h: nat)
    requires e.Divisors() && e.ForkAligned() && h > 0
    requires !e.dardanellesOn || h <= e.dardanellesHeight
    ensures Encloses(e, h)
  {
    var n := e.GetEpochNumber(h);
    BeforeFork(e, h, n);
    BeforeFork(e, 0, n + 1);
    EnclosedByMultiples(h - 1, e.OldLength());
    if e.dardanellesOn {
      AtFork(e);
      NumberMonotone(e, h, e.dardanellesHeight);
      if n == e.ForkEpoch() { FirstEpochAfterFork(e); }
    }
  }

  lemma FirstEpochAfterFork(e: EpochCtx)
    requires e.Divisors() && e.dardanellesOn
    ensures e.GetEpochHeight(e.ForkEpoch() + 1) == e.GetEpochHeight(e.ForkEpoch()) + e.NewLength()
  {
    AfterFork(e, 0, e.ForkEpoch() + 1);
  }

  lemma EnclosesAfterFork(e: EpochCtx, h: nat)
    requires e.Divisors() && e.dardanellesOn && h > e.dardanellesHeight
    ensures Encloses(e, h)
  {
    AtFork(e);
    AfterFork(e, h, e.GetEpochNumber(h));
    AfterFork(e, h, e.GetEpochNumber(h) + 1);
    EnclosedByMultiples(h - e.GetEpochHeight(e.ForkEpoch()), e.NewLength());
  }

  lemma EnclosedByMultiples(a: nat, n: nat)
    requires n > 0
    ensures n * (a / n) <= a < n * (a / n + 1)
    ensures a / n >= 0
  {
    DivMonotone(0, a, n);
  }

  lemma AlignedRoundTrip(e: EpochCtx, n: nat)
    requires e.Divisors() && e.ForkAligned() && n > 0
    ensures e.GetEpochHeight(n) > 0
    ensures e.GetEpochNumber(e.GetEpochHeight(n)) == n
  {
    HeightStrictlyMonotone(e, 0, n);
    var h := e.GetEpochHeight(n);
    AlignedEncloses(e, h);
    var m := e.GetEpochNumber(h);
    if m < n {
      if m + 1 < n { HeightStrictlyMonotone(e, m + 1, n); }
    } else if n < m {
      HeightStrictlyMonotone(e, n, m);
    }
  }

  /** When the fork is not aligned, the fork height itself is not below the start of the next epoch. */
  lemma MisalignedFork(e: EpochCtx)
    requires e.Divisors() && !e.ForkAligned()
    ensures !Encloses(e, e.dardanellesHeight)
    ensures e.GetEpochNumber(e.GetEpochHeight(e.ForkEpoch() + 1)) != e.ForkEpoch() + 1
    ensures e.GetEpochNumber(e.dardanellesHeight + 1) != e.GetEpochNumber(e.dardanellesHeight)
    ensures e.GetEpochHeight(e.GetEpochNumber(e.dardanellesHeight) + 1) <= e.dardanellesHeight
  {
    var fork := e.ForkEpoch();
    AtFork(e);
    AfterFork(e, e.dardanellesHeight + 1, fork + 1);
    var next := e.GetEpochHeight(fork + 1);
    NumberMonotone(e, next, e.dardanellesHeight);
    EnclosedByMultiples(e.dardanellesHeight + 1 - e.GetEpochHeight(fork), e.NewLength());
  }

  /** The two functions form a Galois connection exactly when the fork is aligned. */
  lemma EnclosureIff(e: EpochCtx)
    requires e.Divisors()
    ensures e.ForkAligned() <==> forall h: nat :: h > 0 ==> Encloses(e, h)
  {
    if e.ForkAligned() {
      forall h: nat | h > 0 ensures Encloses(e, h) { AlignedEncloses(e, h); }
    } else {
      MisalignedFork(e);
    }
  }

  /** Every epoch number survives the round trip through its start height exactly when the fork is aligned. */
  lemma RoundTripIff(e: EpochCtx)
    requires e.Divisors()
    ensures e.ForkAligned() <==> forall n: nat :: n > 0 ==> e.GetEpochNumber(e.GetEpochHeight(n)) == n
  {
    if e.ForkAligned() {
      forall n: nat | n > 0 ensures e.GetEpochNumber(e.GetEpochHeight(n)) == n { AlignedRoundTrip(e, n); }
    } else {
      MisalignedFork(e);
    }
  }

  /** A height either continues the epoch of the height before it, or it is the start of the very next
      epoch: no epoch is skipped and none is entered in the middle. */
  ghost predicate StepsByOne(e: EpochCtx, h: nat)
    requires e.Divisors()
  {
    || e.GetEpochNumber(h + 1) == e.GetEpochNumber(h)
    || (e.GetEpochNumber(h + 1) == e.GetEpochNumber(h) + 1 && h + 1 == e.GetEpochHeight(e.GetEpochNumber(h + 1)))
  }

  lemma AlignedStep(e: EpochCtx, h: nat)
    requires e.Divisors() && e.ForkAligned() && h > 0
    ensures StepsByOne(e, h)
    ensures h + 1 == e.GetEpochHeight(e.GetEpochNumber(h + 1)) ==> e.GetEpochNumber(h + 1) == e.GetEpochNumber(h) + 1
  {
    var m, n := e.GetEpochNumber(h), e.GetEpochNumber(h + 1);
    AlignedEncloses(e, h);
    AlignedEncloses(e, h + 1);
    NumberMonotone(e, h, h + 1);
    if m + 1 < n { HeightStrictlyMonotone(e, m + 1, n); }
  }

  /** The indexer closes an epoch at the first height of the next one, so this is the property that every
      epoch-closing table depends on; it holds for all heights exactly when the fork is aligned. */
  lemma EpochsCloseOnTimeIff(e: EpochCtx)
    requires e.Divisors()
    ensures e.ForkAligned() <==> forall h: nat :: h > 0 ==> StepsByOne(e, h)
  {
    if e.ForkAligned() {
      forall h: nat | h > 0 ensures StepsByOne(e, h) { AlignedStep(e, h); }
    } else {
      MisalignedFork(e);
      assert !StepsByOne(e, e.dardanellesHeight);
    }
  }

  /** With the fork switched on, height 1 opens epoch 1. */
  lemma FirstEpoch(e: EpochCtx)
    requires e.Divisors() && e.dardanellesHeight > 0
    ensures e.GetEpochNumber(1) == 1 && e.GetEpochHeight(1) == 1
  {
    BeforeFork(e, 1, 1);
    DivUnique(0, e.OldLength(), 0, 0);
    if e.dardanellesOn { NumberMonotone(e, 1, e.dardanellesHeight); AtFork(e); }
  }

  /** Epoch lengths: the old length before the fork epoch, the new one from the fork epoch on. */
  lemma EpochLength(e: EpochCtx, n: nat)
    requires e.Divisors() && n > 0
    ensures e.GetEpochHeight(n + 1) - e.GetEpochHeight(n)
            == if !e.dardanellesOn || n < e.ForkEpoch() then e.OldLength() else e.NewLength()
  {
    BeforeFork(e, 0, n);
    BeforeFork(e, 0, n + 1);
    if !e.dardanellesOn || n < e.ForkEpoch() {
      assert e.OldLength() * n == e.OldLength() * (n - 1) + e.OldLength();
    } else {
      AfterFork(e, 0, n);
      AfterFork(e, 0, n + 1);
      var k := n - e.ForkEpoch();
      assert e.NewLength() * (k + 1) == e.NewLength() * k + e.NewLength();
      assert e.NewLength() * 0 == 0;
    }
  }

  /* ---------- the Fairbank switch ---------- */

  /** If fairbankHeight starts an epoch at or after the fork, the effective height starts the next epoch. */
  lemma FairbankSwitchStartsNextEpoch(e: EpochCtx, n: nat)
    requires e.Divisors() && e.dardanellesOn && 0 < n && e.ForkEpoch() <= n
    requires e.fairbankHeight == e.GetEpochHeight(n)
    ensures e.FairbankEffectiveHeight() == e.GetEpochHeight(n + 1)
  {
    EpochLength(e, n);
  }

  /** `height >= FairbankEffectiveHeight()` gives one answer throughout every epoch exactly when the
      effective height is 0 or the first height of an epoch. */
  lemma SwitchConstantWithinEpochsIff(e: EpochCtx)
    requires e.Divisors() && e.ForkAligned()
    ensures (forall h: nat :: h > 0 ==>
               (h >= e.FairbankEffectiveHeight()
                <==> e.GetEpochHeight(e.GetEpochNumber(h)) >= e.FairbankEffectiveHeight()))
       <==> (e.FairbankEffectiveHeight() == 0
             || e.FairbankEffectiveHeight() == e.GetEpochHeight(e.GetEpochNumber(e.FairbankEffectiveHeight())))
  {
    var f := e.FairbankEffectiveHeight();
    if f > 0 {
      AlignedEncloses(e, f);
      if f == e.GetEpochHeight(e.GetEpochNumber(f)) {
        forall h: nat | h > 0
          ensures h >= f <==> e.GetEpochHeight(e.GetEpochNumber(h)) >= f
        {
          AlignedEncloses(e, h);
          if h >= f {
            NumberMonotone(e, f, h);
            if e.GetEpochNumber(f) < e.GetEpochNumber(h) {
              HeightStrictlyMonotone(e, e.GetEpochNumber(f), e.GetEpochNumber(h));
            }
          }
        }
      } else {
        assert !(f >= f <==> e.GetEpochHeight(e.GetEpochNumber(f)) >= f);
      }
    }
  }

  /* ---------- what the protocols ask about a block's height ---------- */

  /** Where a height lies: its epoch, whether it starts the epoch, where the epoch before it started, and
      whether staking is in force. Every HandleBlock works these out first. */
  datatype Place = Place(epoch: nat, starts: bool, prevHeight: nat, staking: bool)

  function PlaceOf(e: EpochCtx, height: nat): (p: Place)
    requires e.Divisors() && e.dardanellesHeight > 0 && height > 0
    ensures p.epoch > 0
  {
    PositiveEpoch(e, height);
    var n := e.GetEpochNumber(height);
    Place(n, height == e.GetEpochHeight(n), e.GetEpochHeight(n - 1), height >= e.FairbankEffectiveHeight())
  }

  lemma PositiveEpoch(e: EpochCtx, height: nat)
    requires e.Divisors() && e.dardanellesHeight > 0 && height > 0
    ensures e.GetEpochNumber(height) > 0
  {
    FirstEpoch(e);
    NumberMonotone(e, 1, height);
  }

  /** The effective height of Fairbank is 0 or the first height of an epoch. */
  ghost predicate SwitchAligned(e: EpochCtx)
    requires e.Divisors()
  {
    var f := e.FairbankEffectiveHeight();
    f == 0 || f == e.GetEpochHeight(e.GetEpochNumber(f))
  }

  /** Whether staking is in force at a height is decided by the first height of its epoch. */
  lemma StakingOfEpoch(e: EpochCtx, h: nat)
    requires e.Divisors() && e.ForkAligned() && SwitchAligned(e) && h > 0
    ensures h >= e.FairbankEffectiveHeight() <==> e.GetEpochHeight(e.GetEpochNumber(h)) >= e.FairbankEffectiveHeight()
  {
    hide EpochCtx.GetEpochHeight, EpochCtx.GetEpochNumber, EpochCtx.FairbankEffectiveHeight, EpochCtx.ForkAligned;
    var f, n := e.FairbankEffectiveHeight(), e.GetEpochNumber(h);
    AlignedEncloses(e, h);
    if 0 < f <= h {
      NumberMonotone(e, f, h);
      if e.GetEpochNumber(f) < n { HeightStrictlyMonotone(e, e.GetEpochNumber(f), n); }
    }
  }

  /** The next height either starts the next epoch or shares everything but its number with this one. */
  lemma NextPlace(e: EpochCtx, h: nat)
    requires e.Divisors() && e.dardanellesHeight > 0 && e.ForkAligned() && h > 0
    ensures var p, q := PlaceOf(e, h), PlaceOf(e, h + 1);
            && q.epoch == p.epoch + (if q.starts then 1 else 0)
            && (!q.starts ==> q.prevHeight == p.prevHeight)
            && (!q.starts && SwitchAligned(e) ==> q.staking == p.staking)
  {
    AlignedStep(e, h);
    if e.GetEpochNumber(h + 1) == e.GetEpochNumber(h) {
      AlignedEncloses(e, h);
      if SwitchAligned(e) { SwitchConstantWithinEpochsIff(e); }
    }
  }

  lemma FirstPlace(e: EpochCtx)
    requires e.Divisors() && e.dardanellesHeight > 0
    ensures PlaceOf(e, 1).epoch == 1 && PlaceOf(e, 1).starts
  {
    FirstEpoch(e);
  }
}
