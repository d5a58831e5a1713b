/** The completion times that simulation/analysis/optimal_jct_analyzer.py derives
    from the reduction tree and for a ring.  */
module AllReduceTimes {
  import opened Wrappers
  import opened Arithmetic
  import opened RealArithmetic
  import opened ReductionTree
  import OptimalJct

  lemma {:induction false} Pow2Exceeds(e: nat)
    ensures Pow2(e) >= e + 1
    ensures e >= 2 ==> Pow2(e) >= e + 2
  {
    if e == 0 {
    } else {
      Pow2Exceeds(e - 1);
    }
  }

  lemma Pow2Small()
    ensures Pow2(0) == 1 && Pow2(1) == 2 && Pow2(2) == 4
  {
  }

  lemma HeightBelowGroup(n: nat, tree: Tree)
    requires n > 1 && Shape(n, tree)
    ensures tree.height <= n - 1
    ensures tree.height == n - 1 <==> n <= 3
  {
    hide Shape, Pow2;
    HeightIsLog(n, tree);
    Pow2Exceeds(tree.height - 1);
    Pow2Small();
  }

  /** Bits per second. */
  const GIGA: real := 1000000000.0

  /** Time to send one message at the server rate, in seconds. */
  function TransmissionTime(messageSize: nat, gbps: real): real
    requires gbps > 0.0
  {
    (messageSize * 8) as real / (gbps * GIGA)
  }

  /** Two passes around the ring; there is none for fewer than two members. */
  function RingJct(messageSize: nat, gbps: real, n: nat): Option<real>
    requires gbps > 0.0
  {
    if n < 2 then None else Some((2 * (n - 1)) as real * TransmissionTime(messageSize, gbps))
  }

  /** Reduce up the tree, then broadcast down. */
  function TreeJct(messageSize: nat, gbps: real, tree: Tree): real
    requires gbps > 0.0
  {
    tree.height as real * TransmissionTime(messageSize, gbps)
    + tree.height as real * TransmissionTime(messageSize, gbps)
  }

  // ------------------------------------------------------------ what the times are for

  /** One step of the ring: everybody sends the message to the next member. */
  function RingStep(n: nat, messageSize: nat): (m: OptimalJct.Matrix)
    ensures |m| == n && OptimalJct.Square(m)
    ensures forall i, j :: 0 <= i < n && 0 <= j < n ==> m[i][j] == if j == (i + 1) % n then messageSize else 0
  {
    seq(n, i requires 0 <= i < n => seq(n, j requires 0 <= j < n => if j == (i + 1) % n then messageSize else 0))
  }

  /** A lane with a single message. */
  lemma {:induction false} OneMessage(m: OptimalJct.Matrix, lane: OptimalJct.Lane, k: nat, bytes: nat)
    requires OptimalJct.Square(m) && OptimalJct.InRange(lane, |m|)
    requires forall i :: 0 <= i < |lane| ==> (lane[i] in lane && m[lane[i].0][lane[i].1] == if i == k then bytes else 0)
    ensures OptimalJct.Load(m, lane) == if k < |lane| then bytes else 0
  {
    if lane == [] {
    } else {
      var before := lane[..|lane| - 1];
      assert forall i :: 0 <= i < |before| ==> before[i] == lane[i] && before[i] in before;
      OneMessage(m, before, k, bytes);
    }
  }

  /** The member before `j`. */
  function Predecessor(j: nat, n: nat): nat
    requires j < n
  {
    if j == 0 then n - 1 else j - 1
  }

  lemma NextOf(i: nat, j: nat, n: nat)
    requires i < n && j < n
    ensures 0 <= (i + 1) % n < n
    ensures j == (i + 1) % n <==> i == Predecessor(j, n)
  {
    if i == n - 1 {
      DivModUnique(i + 1, n, 1, 0);
    } else {
      DivModUnique(i + 1, n, 0, i + 1);
    }
  }

  lemma RingLoads(n: nat, messageSize: nat, i: nat)
    requires i < n
    ensures OptimalJct.Load(RingStep(n, messageSize), OptimalJct.Row(i, n)) == messageSize
    ensures OptimalJct.Load(RingStep(n, messageSize), OptimalJct.Column(i, n)) == messageSize
  {
    hide OptimalJct.Load;
    var m, row, column := RingStep(n, messageSize), OptimalJct.Row(i, n), OptimalJct.Column(i, n);
    NextOf(i, 0, n);
    forall k | 0 <= k < n
      ensures row[k] in row && m[row[k].0][row[k].1] == if k == (i + 1) % n then messageSize else 0
      ensures column[k] in column
      ensures m[column[k].0][column[k].1] == if k == Predecessor(i, n) then messageSize else 0
    {
      NextOf(k, i, n);
    }
    OneMessage(m, row, (i + 1) % n, messageSize);
    OneMessage(m, column, Predecessor(i, n), messageSize);
  }

  /** A step of the ring takes exactly as long as no schedule of its messages
      can beat: all members send and receive at the full server rate.  */
  lemma RingStepIsIdeal(n: nat, messageSize: nat, gbps: real)
    requires n > 0 && gbps > 0.0
    ensures gbps * GIGA > 0.0
    ensures OptimalJct.IdealJct(RingStep(n, messageSize), gbps * GIGA) == TransmissionTime(messageSize, gbps)
  {
    hide OptimalJct.MaxOf;
    var m, bps := RingStep(n, messageSize), gbps * GIGA;
    var t := TransmissionTime(messageSize, gbps);
    var s, r := OptimalJct.SenderTimes(m, bps), OptimalJct.ReceiverTimes(m, bps);
    forall i: nat | i < n ensures s[i] == t && r[i] == t {
      RingLoads(n, messageSize, i);
    }
    assert OptimalJct.MaxOf(s) in s && OptimalJct.MaxOf(r) in r;
  }

  /** The ring's time is that of its 2(n-1) steps, and both times in bits: the
      ring moves 2(n-1) messages one after another, the tree two per level.  */
  lemma TimesInBits(messageSize: nat, gbps: real, n: nat, tree: Tree)
    requires gbps > 0.0
    ensures TreeJct(messageSize, gbps, tree) * (gbps * GIGA) == (2 * tree.height * (messageSize * 8)) as real
    ensures n < 2 <==> RingJct(messageSize, gbps, n).None?
    ensures n >= 2 ==>
      RingJct(messageSize, gbps, n).value * (gbps * GIGA) == (2 * (n - 1) * (messageSize * 8)) as real
  {
    var t, o := TransmissionTime(messageSize, gbps), gbps * GIGA;
    assert t * o == (messageSize * 8) as real;
    InBits(2 * tree.height, messageSize * 8, t, o);
    var h := tree.height as real;
    assert h * t + h * t == (2 * tree.height) as real * t;
    if n >= 2 {
      InBits(2 * (n - 1), messageSize * 8, t, o);
    }
  }

  lemma InBits(k: nat, bits: nat, t: real, o: real)
    requires t * o == bits as real
    ensures (k as real * t) * o == (k * bits) as real
  {
    assert (k as real * t) * o == k as real * (t * o);
  }

  /** The ideal tree time never exceeds the ideal ring time, and the two are
      equal exactly for groups of two or three or empty messages.  */
  lemma TreeNeverSlowerThanRing(messageSize: nat, gbps: real, n: nat, tree: Tree)
    requires n > 1 && Shape(n, tree) && gbps > 0.0
    ensures RingJct(messageSize, gbps, n).Some?
    ensures TreeJct(messageSize, gbps, tree) <= RingJct(messageSize, gbps, n).value
    ensures TreeJct(messageSize, gbps, tree) == RingJct(messageSize, gbps, n).value <==> n <= 3 || messageSize == 0
  {
    hide Shape, TransmissionTime;
    HeightBelowGroup(n, tree);
    TransmissionSign(messageSize, gbps);
    var x := TransmissionTime(messageSize, gbps);
    var ring, height := (n - 1) as real, tree.height as real;
    assert (2 * (n - 1)) as real == 2.0 * ring;
    Distribute(ring, height, x);
    NonNegativeProduct(ring - height, x, (ring - height) * x);
  }

  lemma TransmissionSign(messageSize: nat, gbps: real)
    requires gbps > 0.0
    ensures TransmissionTime(messageSize, gbps) >= 0.0
    ensures TransmissionTime(messageSize, gbps) == 0.0 <==> messageSize == 0
  {
    var t := TransmissionTime(messageSize, gbps);
    Quotient((messageSize * 8) as real, gbps * GIGA, t);
  }

  lemma Distribute(a: real, b: real, x: real)
    ensures (2.0 * a) * x - (b * x + b * x) == 2.0 * ((a - b) * x)
  {
  }
}
