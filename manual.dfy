/**
 * The manual-control page: the decoder of the device's fault bitmask, the
 * rolling per-motor buffer behind the live chart, and the projection of that
 * buffer onto chart datasets.
 */
module Manual {
  import opened Wrappers

  // ---------------------------------------------------------------------------
  // Fault bitmask decoder
  // ---------------------------------------------------------------------------

  /** The registered fault names; entry i names bit i. Bits 26 to 31 have no name. */
  const ErrorNames: seq<string> := [
    "ERROR_0_MSEC", "ERROR_1_MHMI", "ERROR_2_MMOT", "ERROR_3_MMOV",
    "ERROR_4_LS_EXT_UP", "ERROR_5_LS_EXT_DOWN", "ERROR_6_LS_LEFT", "ERROR_7_LS_RIGHT",
    "ERROR_8_LS_EVER_UP", "ERROR_9_LS_EVER_DOWN", "ERROR_10_LS_DORS_UP", "ERROR_11_LS_DORS_DOWN",
    "ERROR_12_CYCLESMS", "ERROR_13", "ERROR_14_MMOT_CAN_CONNECT", "ERROR_15_MMOT_CAN_MAX_DELAY",
    "ERROR_16_MMOT_SET_ORIGIN", "ERROR_17_MOTOR_1", "ERROR_18_MOTOR_2", "ERROR_19_MOTOR_3",
    "ERROR_20_MMOT_MINMAX_POS", "ERROR_21_MMOT_MINMAX_TORQUE", "ERROR_22_MMOT_MINMAX_SPEED", "ERROR_23",
    "ERROR_24", "ERROR_25"]

  const WordBits: nat := 32
  const Two32: int := 0x1_0000_0000

  /** Bit i of the natural number w. */
  function BitOf(w: nat, i: nat): bool
    decreases i
  {
    if i == 0 then w % 2 == 1 else BitOf(w / 2, i - 1)
  }

  /**
   * `errorCode & (1 << i)` is non-zero: the bitwise operators see the number
   * as a 32-bit pattern, that is, modulo 2^32.
   */
  predicate BitSet(errorCode: int, i: nat) {
    BitOf(errorCode % Two32, i)
  }

  /** The ascending list of indices below n whose bit is set and that have a name. */
  function NamedBits(errorCode: int, n: nat): seq<nat>
    decreases n
  {
    if n == 0 then []
    else NamedBits(errorCode, n - 1)
         + (if BitSet(errorCode, n - 1) && n - 1 < |ErrorNames| then [n - 1] else [])
  }

  /** The names of a list of registered bit indices. */
  function NamesOf(bits: seq<nat>): (r: seq<string>)
    requires forall j :: 0 <= j < |bits| ==> bits[j] < |ErrorNames|
  {
    seq(|bits|, j requires 0 <= j < |bits| => ErrorNames[bits[j]])
  }

  lemma {:induction false} NamedBitsRegistered(errorCode: int, n: nat)
    ensures forall j :: 0 <= j < |NamedBits(errorCode, n)| ==> NamedBits(errorCode, n)[j] < |ErrorNames|
  {
    if n > 0 {
      NamedBitsRegistered(errorCode, n - 1);
    }
  }

  /** What `decodeErrorCode` returns for `errorCode`. */
  function Decoded(errorCode: int): seq<string>
  {
    NamedBitsRegistered(errorCode, WordBits);
    NamesOf(NamedBits(errorCode, WordBits))
  }

  /** `decodeErrorCode`: the loop over the 32 bits, pushing the name of every set, registered bit. */
  method DecodeErrorCode(errorCode: int) returns (errorNames: seq<string>)
    ensures errorNames == Decoded(errorCode)
  {
    errorNames := [];
    NamedBitsRegistered(errorCode, 0);
    for i := 0 to WordBits
      invariant forall j :: 0 <= j < |NamedBits(errorCode, i)| ==> NamedBits(errorCode, i)[j] < |ErrorNames|
      invariant errorNames == NamesOf(NamedBits(errorCode, i))
    {
      if BitSet(errorCode, i) {
        if i < |ErrorNames| {
          errorNames := errorNames + [ErrorNames[i]];
        }
      }
      NamedBitsRegistered(errorCode, i + 1);
    }
  }

  /** The set indices below n are exactly the registered set bits, strictly ascending. */
  lemma {:induction false} NamedBitsExact(errorCode: int, n: nat)
    ensures forall j :: 0 <= j < |NamedBits(errorCode, n)| ==>
              NamedBits(errorCode, n)[j] < n && NamedBits(errorCode, n)[j] < |ErrorNames|
              && BitSet(errorCode, NamedBits(errorCode, n)[j])
    ensures forall j, k :: 0 <= j < k < |NamedBits(errorCode, n)| ==>
              NamedBits(errorCode, n)[j] < NamedBits(errorCode, n)[k]
    ensures forall i :: 0 <= i < n && i < |ErrorNames| && BitSet(errorCode, i) ==> i in NamedBits(errorCode, n)
  {
    if n > 0 {
      NamedBitsExact(errorCode, n - 1);
    }
  }

  lemma ErrorNamesDistinct()
    ensures forall i, j :: 0 <= i < j < |ErrorNames| ==> ErrorNames[i] != ErrorNames[j]
  {
  }

  /** The upper bits never contribute: above bit 25 nothing more is named. */
  lemma {:induction false} NamedBitsSaturate(errorCode: int, n: nat)
    requires n >= |ErrorNames|
    ensures NamedBits(errorCode, n) == NamedBits(errorCode, |ErrorNames|)
  {
    if n > |ErrorNames| {
      NamedBitsSaturate(errorCode, n - 1);
    }
  }

  lemma {:induction false} NamedBitsLength(errorCode: int, n: nat)
    ensures |NamedBits(errorCode, n)| <= n
  {
    if n > 0 {
      NamedBitsLength(errorCode, n - 1);
    }
  }

  /** At most one name per registered bit. */
  lemma DecodedBound(errorCode: int)
    ensures |Decoded(errorCode)| <= |ErrorNames|
  {
    NamedBitsSaturate(errorCode, WordBits);
    NamedBitsLength(errorCode, |ErrorNames|);
  }

  /** In a table without repeats, the names of a list of indices are the names of its members. */
  lemma NamesOfMembers(table: seq<string>, bits: seq<nat>, i: nat)
    requires forall j, k :: 0 <= j < k < |table| ==> table[j] != table[k]
    requires forall j :: 0 <= j < |bits| ==> bits[j] < |table|
    requires i < |table|
    ensures table[i] in seq(|bits|, j requires 0 <= j < |bits| => table[bits[j]]) <==> i in bits
  {
    var d := seq(|bits|, j requires 0 <= j < |bits| => table[bits[j]]);
    if i in bits {
      var j :| 0 <= j < |bits| && bits[j] == i;
      assert d[j] == table[i];
    }
    if table[i] in d {
      var j :| 0 <= j < |d| && d[j] == table[i];
      assert table[bits[j]] == table[i];
    }
  }

  /** The decoded list names exactly the set bits 0 to 25; bits 26 to 31 contribute nothing. */
  lemma DecodedMembers(errorCode: int)
    ensures forall i :: 0 <= i < |ErrorNames| ==> (ErrorNames[i] in Decoded(errorCode) <==> BitSet(errorCode, i))
    ensures forall s :: s in Decoded(errorCode) ==> s in ErrorNames
  {
    var bits := NamedBits(errorCode, WordBits);
    NamedBitsExact(errorCode, WordBits);
    ErrorNamesDistinct();
    forall i | 0 <= i < |ErrorNames|
      ensures ErrorNames[i] in Decoded(errorCode) <==> BitSet(errorCode, i)
    {
      NamesOfMembers(ErrorNames, bits, i);
    }
    forall s | s in Decoded(errorCode) ensures s in ErrorNames {
      var j :| 0 <= j < |Decoded(errorCode)| && Decoded(errorCode)[j] == s;
      assert s == ErrorNames[bits[j]];
    }
  }

  /** The decoded names come in ascending bit order, so none twice. */
  lemma DecodedAscending(errorCode: int)
    ensures forall j, k, a, b ::
              (0 <= j < k < |Decoded(errorCode)| && 0 <= a < |ErrorNames| && 0 <= b < |ErrorNames|
               && Decoded(errorCode)[j] == ErrorNames[a] && Decoded(errorCode)[k] == ErrorNames[b]) ==> a < b
    ensures forall j, k :: 0 <= j < k < |Decoded(errorCode)| ==> Decoded(errorCode)[j] != Decoded(errorCode)[k]
  {
    var bits := NamedBits(errorCode, WordBits);
    var d := Decoded(errorCode);
    NamedBitsExact(errorCode, WordBits);
    ErrorNamesDistinct();
    assert forall j :: 0 <= j < |d| ==> d[j] == ErrorNames[bits[j]];
  }

  lemma {:induction false} BitOfZero(i: nat)
    ensures !BitOf(0, i)
  {
    if i > 0 {
      BitOfZero(i - 1);
    }
  }

  lemma {:induction false} NamedBitsOfZero(n: nat)
    ensures NamedBits(0, n) == []
  {
    if n > 0 {
      NamedBitsOfZero(n - 1);
      BitOfZero(n - 1);
    }
  }

  /** No fault bit set: nothing to report. */
  lemma DecodedZero()
    ensures Decoded(0) == []
  {
    NamedBitsOfZero(WordBits);
  }

  /** Bit i of 2^k is set exactly when i is k. */
  lemma {:induction false} BitOfPow2(k: nat, i: nat)
    ensures BitOf(Pow2(k), i) <==> i == k
  {
    if k == 0 {
      if i > 0 {
        BitOfZero(i - 1);
      }
    } else if i > 0 {
      BitOfPow2(k - 1, i - 1);
    }
  }

  /** `1 << 4` decodes to the single name of bit 4. */
  lemma DecodedBitFour()
    ensures Decoded(16) == ["ERROR_4_LS_EXT_UP"]
  {
    assert Pow2(4) == 16;
    forall i: nat ensures BitSet(16, i) <==> i == 4 {
      BitOfPow2(4, i);
    }
    NamedBitsAbove(16, 0, 4);
    assert NamedBits(16, 5) == [4];
    NamedBitsAbove(16, 5, WordBits);
  }

  /** Between m and n no further index is named when none of those bits is set. */
  lemma {:induction false} NamedBitsAbove(errorCode: int, m: nat, n: nat)
    requires m <= n
    requires forall i: nat :: m <= i < n ==> !BitSet(errorCode, i)
    ensures NamedBits(errorCode, n) == NamedBits(errorCode, m)
  {
    if n > m {
      NamedBitsAbove(errorCode, m, n - 1);
    }
  }

  function Pow2(n: nat): (r: nat)
    ensures r >= 1
  {
    if n == 0 then 1 else 2 * Pow2(n - 1)
  }

  lemma {:induction false} Pow2Add(m: nat, n: nat)
    ensures Pow2(m + n) == Pow2(m) * Pow2(n)
  {
    if m > 0 {
      Pow2Add(m - 1, n);
    }
  }

  lemma Pow2Word()
    ensures Pow2(WordBits) == Two32
  {
    assert Pow2(8) == 256;
    Pow2Add(8, 8);
    Pow2Add(16, 16);
  }

  lemma {:induction false} BitOfAllOnes(n: nat, i: nat)
    requires i < n
    ensures BitOf(Pow2(n) - 1, i)
  {
    if i > 0 {
      assert (Pow2(n) - 1) / 2 == Pow2(n - 1) - 1;
      BitOfAllOnes(n - 1, i - 1);
    }
  }

  lemma {:induction false} NamedBitsAllOnes(n: nat)
    requires n <= |ErrorNames|
    ensures NamedBits(Two32 - 1, n) == seq(n, i => i)
  {
    if n > 0 {
      NamedBitsAllOnes(n - 1);
      Pow2Word();
      BitOfAllOnes(WordBits, n - 1);
    }
  }

  /** All 32 bits set: the full ordered list of the 26 registered names. */
  lemma DecodedAllBits()
    ensures Decoded(Two32 - 1) == ErrorNames
  {
    NamedBitsSaturate(Two32 - 1, WordBits);
    NamedBitsAllOnes(|ErrorNames|);
  }

  /** `names.join(separator)`: the names in order with the separator between two of them. */
  function Join(names: seq<string>, separator: string): (r: string)
    ensures names == [] ==> r == ""
    ensures names != [] ==> names[0] <= r
    ensures |names| > 1 ==> names[0] + separator <= r
    ensures names != [] ==> var last := names[|names| - 1];
              |last| <= |r| && r[|r| - |last|..] == last
  {
    if names == [] then ""
    else if |names| == 1 then names[0]
    else names[0] + separator + Join(names[1..], separator)
  }

  /** No error name is empty. */
  lemma ErrorNamesNonEmpty()
    ensures forall k :: 0 <= k < |ErrorNames| ==> ErrorNames[k] != ""
  {
  }

  /** Every decoded name is a registered one, so none is empty. */
  lemma DecodedNonEmpty(errorCode: int)
    ensures forall k :: 0 <= k < |Decoded(errorCode)| ==> Decoded(errorCode)[k] != ""
  {
    DecodedMembers(errorCode);
    ErrorNamesNonEmpty();
    var d := Decoded(errorCode);
    forall k | 0 <= k < |d| ensures d[k] != "" {
      assert d[k] in ErrorNames;
    }
  }

  /** Joining non-empty names gives the empty text only for no names. */
  lemma {:induction false} JoinBlank(names: seq<string>, separator: string)
    requires forall k :: 0 <= k < |names| ==> names[k] != ""
    ensures Join(names, separator) == "" <==> names == []
  {
    if |names| > 1 {
      assert |Join(names, separator)| >= |names[0]| > 0;
    }
  }

  /**
   * The text of the error panel for a received error code,
   * `errorNames.join("\n") || ""`: blank exactly when nothing was decoded,
   * otherwise starting with the name of the lowest set fault bit.
   */
  function ErrorDescription(errorCode: int): (r: string)
    ensures r == "" <==> Decoded(errorCode) == []
    ensures Decoded(errorCode) != [] ==> Decoded(errorCode)[0] <= r
  {
    DecodedNonEmpty(errorCode);
    JoinBlank(Decoded(errorCode), "\n");
    Join(Decoded(errorCode), "\n")
  }

  /** The panel is blank exactly when no registered fault bit is set. */
  lemma ErrorDescriptionBlank(errorCode: int)
    ensures ErrorDescription(errorCode) == "" <==> forall i :: 0 <= i < |ErrorNames| ==> !BitSet(errorCode, i)
  {
    DecodedMembers(errorCode);
    var d := Decoded(errorCode);
    if d != [] {
      assert d[0] in ErrorNames;
      var i :| 0 <= i < |ErrorNames| && ErrorNames[i] == d[0];
      assert BitSet(errorCode, i);
    } else {
      forall i | 0 <= i < |ErrorNames| ensures !BitSet(errorCode, i) {
        assert ErrorNames[i] !in d;
      }
    }
  }

  // ---------------------------------------------------------------------------
  // Rolling per-motor buffer
  // ---------------------------------------------------------------------------

  const MaxDataPoints: nat := 100

  /** One chart point of one motor: the arrival time and the readings. */
  datatype Point = Point(x: int, position: int, torque: int)

  /** The three readings of a sample, one per motor. */
  type Triple = s: seq<int> | |s| == 3 witness [0, 0, 0]

  /** A received telemetry message; either array may be missing. */
  datatype Telemetry = Telemetry(positions: Option<Triple>, torques: Option<Triple>)

  /** `[...s].slice(-MAX_DATA_POINTS)`: the last (at most) 100 points, in order. */
  function Window(s: seq<Point>): (r: seq<Point>)
    ensures |r| == if |s| <= MaxDataPoints then |s| else MaxDataPoints
    ensures r == s[|s| - |r|..]
  {
    if |s| <= MaxDataPoints then s else s[|s| - MaxDataPoints..]
  }

  /** The append effect fires only with a sample, a socket, both arrays, and the chart running. */
  predicate Appends(data: Option<Telemetry>, socket: bool, paused: bool) {
    data.Some? && socket && data.value.positions.Some? && data.value.torques.Some? && !paused
  }

  /** The point a sample adds to the series of motor `motor` (0, 1 or 2). */
  function PointOf(t: Telemetry, motor: nat, now: int): Point
    requires t.positions.Some? && t.torques.Some? && motor < 3
  {
    Point(now, t.positions.value[motor], t.torques.value[motor])
  }

  /** The chart state of the page: the pause flag and one series per motor. */
  class MotorBuffer {
    var paused: bool
    var m1: seq<Point>
    var m2: seq<Point>
    var m3: seq<Point>

    /** The three series hold at most 100 points, are appended to together, so share their timestamps. */
    ghost predicate Valid()
      reads this
    {
      && |m1| <= MaxDataPoints
      && |m2| == |m1| && |m3| == |m1|
      && forall k :: 0 <= k < |m1| ==> m2[k].x == m1[k].x && m3[k].x == m1[k].x
    }

    /**
     * Mounting the page: the state starts with one placeholder point per motor
     * and unpaused, and the reset effect then runs, because `paused` is false.
     */
    constructor ()
      ensures Valid()
      ensures !paused && m1 == [] && m2 == [] && m3 == []
    {
      paused := false;
      m1, m2, m3 := [Point(0, 0, 0)], [Point(0, 0, 0)], [Point(0, 0, 0)];
      new;
      if !paused {
        m1, m2, m3 := [], [], [];
      }
    }

    /** The append effect, on a new sample or socket; `now` is the wall-clock time it reads. */
    method Append(data: Option<Telemetry>, socket: bool, now: int)
      requires Valid()
      modifies this
      ensures Valid() && paused == old(paused)
      ensures Appends(data, socket, old(paused)) ==>
                && m1 == Window(old(m1) + [PointOf(data.value, 0, now)])
                && m2 == Window(old(m2) + [PointOf(data.value, 1, now)])
                && m3 == Window(old(m3) + [PointOf(data.value, 2, now)])
      ensures !Appends(data, socket, old(paused)) ==> m1 == old(m1) && m2 == old(m2) && m3 == old(m3)
    {
      if data.Some? && socket && data.value.positions.Some? && data.value.torques.Some? && !paused {
        var positions, torques := data.value.positions.value, data.value.torques.value;
        m1 := Window(m1 + [Point(now, positions[0], torques[0])]);
        m2 := Window(m2 + [Point(now, positions[1], torques[1])]);
        m3 := Window(m3 + [Point(now, positions[2], torques[2])]);
      }
    }

    /** The pause button: the series are frozen as they are. */
    method Pause()
      requires Valid()
      modifies this
      ensures Valid() && paused
      ensures m1 == old(m1) && m2 == old(m2) && m3 == old(m3)
    {
      paused := true;
    }

    /**
     * The play button: when the chart was paused, leaving the pause runs the
     * reset effect and all three series restart empty. Setting an already false
     * flag changes no state and runs no effect.
     */
    method Resume()
      requires Valid()
      modifies this
      ensures Valid() && !paused
      ensures old(paused) ==> m1 == [] && m2 == [] && m3 == []
      ensures !old(paused) ==> m1 == old(m1) && m2 == old(m2) && m3 == old(m3)
    {
      if paused {
        paused := false;
        m1, m2, m3 := [], [], [];
      }
    }

    /** `getChartData`: one dataset per motor, with the selected reading as `y`. */
    function ChartData(metric: Metric): (r: seq<Dataset>)
      reads this
      ensures |r| == 3
      ensures r[0].name == "Motor 1" && r[1].name == "Motor 2" && r[2].name == "Motor 3"
      ensures |r[0].data| == |m1| && |r[1].data| == |m2| && |r[2].data| == |m3|
      ensures forall k :: 0 <= k < |m1| ==> r[0].data[k] == XY(m1[k].x, Reading(m1[k], metric))
      ensures forall k :: 0 <= k < |m2| ==> r[1].data[k] == XY(m2[k].x, Reading(m2[k], metric))
      ensures forall k :: 0 <= k < |m3| ==> r[2].data[k] == XY(m3[k].x, Reading(m3[k], metric))
    {
      [ Dataset("Motor 1", "rgb(255, 99, 132)", Project(m1, metric)),
        Dataset("Motor 2", "rgb(99, 255, 132)", Project(m2, metric)),
        Dataset("Motor 3", "rgb(99, 132, 255)", Project(m3, metric)) ]
    }
  }

  /** Error code 0 leaves the error panel blank. */
  lemma ErrorDescriptionZero()
    ensures ErrorDescription(0) == ""
  {
    DecodedZero();
  }

  /** The successive states of one series fed the points `points` while running. */
  function Feed(s: seq<Point>, points: seq<Point>): seq<Point>
    decreases |points|
  {
    if points == [] then s else Feed(Window(s + [points[0]]), points[1..])
  }

  lemma WindowOfWindow(s: seq<Point>, t: seq<Point>)
    ensures Window(Window(s) + t) == Window(s + t)
  {
    var w := Window(s);
    assert s == s[..|s| - |w|] + w;
    assert s + t == s[..|s| - |w|] + (w + t);
  }

  /**
   * Appending a stream of points one by one keeps the last 100 points of
   * everything fed so far, in arrival order.
   */
  lemma {:induction false} FeedKeepsLatest(s: seq<Point>, points: seq<Point>)
    requires |s| <= MaxDataPoints
    ensures Feed(s, points) == Window(s + points)
    decreases |points|
  {
    if points != [] {
      var first, rest := points[0], points[1..];
      var w := Window(s + [first]);
      calc {
        Feed(s, points);
        Feed(w, rest);
        { FeedKeepsLatest(w, rest); }
        Window(w + rest);
        { WindowOfWindow(s + [first], rest); }
        Window(s + [first] + rest);
        { assert s + [first] + rest == s + points; }
        Window(s + points);
      }
    }
  }

  /** After 100 or more appends each series holds exactly the 100 most recent points. */
  lemma FeedFull(s: seq<Point>, points: seq<Point>)
    requires |s| <= MaxDataPoints && |points| >= MaxDataPoints
    ensures |Feed(s, points)| == MaxDataPoints
    ensures Feed(s, points) == points[|points| - MaxDataPoints..]
  {
    FeedKeepsLatest(s, points);
    assert (s + points)[|s + points| - MaxDataPoints..] == points[|points| - MaxDataPoints..];
  }

  // ---------------------------------------------------------------------------
  // Chart adapter
  // ---------------------------------------------------------------------------

  datatype Metric = Position | Torque

  /** One chart coordinate. */
  datatype XY = XY(x: int, y: int)

  datatype Dataset = Dataset(name: string, borderColor: string, data: seq<XY>)

  /** `d[graphDataType]` */
  function Reading(p: Point, metric: Metric): int {
    match metric
    case Position => p.position
    case Torque => p.torque
  }

  /** `series.map(d => ({x: d.x, y: d[graphDataType]}))` */
  function Project(series: seq<Point>, metric: Metric): (r: seq<XY>)
    ensures |r| == |series|
    ensures forall k :: 0 <= k < |series| ==> r[k] == XY(series[k].x, Reading(series[k], metric))
  {
    if series == [] then [] else [XY(series[0].x, Reading(series[0], metric))] + Project(series[1..], metric)
  }
}
