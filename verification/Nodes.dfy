/** Ranking of cluster nodes: the sample integer of skilling.c and its use in Slurm, which ranks
    the nodes of a 3D torus by the Hilbert integers of the coordinates in their names. */
module Nodes {
  import opened Words
  import opened Transform
  import opened Packing
  import opened Curve
  import opened Ordering
  import opened Skilling

  const BITS: nat := 5
  const DIMS: nat := 3

  // ---- the written-out interleaving -------------------------------------------------------

  /** x >> k & 1. */
  function BitAt(x: nat, k: nat): nat {
    And(Shr(x, k), 1)
  }

  lemma BitAtReadsBit(x: nat, k: nat)
    ensures BitAt(x, k) == if Bit(x, k) then 1 else 0
  {
    ShrBit(x, k, 0);
    var y := Shr(x, k);
    if y > 0 { AndZero(y / 2); }
  }

  function Level(X: seq<nat>, k: nat): nat
    requires |X| == DIMS
  {
    BitAt(X[2], k) + BitAt(X[1], k) * 2 + BitAt(X[0], k) * 4
  }

  lemma LevelIsDigit(X: seq<nat>, k: nat)
    requires |X| == DIMS
    ensures Digit(X, k) == Level(X, k)
  {
    hide Bit, BitAt;
    BitAtReadsBit(X[0], k);
    BitAtReadsBit(X[1], k);
    BitAtReadsBit(X[2], k);
    var Y, Z := X[..2], X[..2][..1];
    assert Y[..1] == Z && Z[..0] == [];
    assert Digit([], k) == 0;
    assert Digit(Z, k) == if Bit(X[0], k) then 1 else 0;
    assert Digit(Y, k) == 2 * Digit(Z, k) + if Bit(X[1], k) then 1 else 0;
  }

  lemma PackLevel(X: seq<nat>, b: nat)
    requires |X| == DIMS
    ensures Pack(X, b + 1) == Level(X, b) * Vol(DIMS, b) + Pack(X, b)
    ensures Vol(DIMS, b + 1) == 8 * Vol(DIMS, b)
  {
    hide Level, Digit;
    LevelIsDigit(X, b);
    assert Pow2(3) == 2 * Pow2(2) == 4 * Pow2(1) == 8 * Pow2(0) == 8;
  }

  lemma PackNone(X: seq<nat>)
    ensures Pack(X, 0) == 0 && Vol(|X|, 0) == 1
  {}

  lemma PackFiveLevels(X: seq<nat>)
    requires |X| == DIMS
    ensures Pack(X, 5) == Level(X, 0) + Level(X, 1) * 8 + Level(X, 2) * 64 + Level(X, 3) * 512 + Level(X, 4) * 4096
  {
    hide Level, Pack, Vol;
    PackLevel(X, 0);
    PackLevel(X, 1);
    PackLevel(X, 2);
    PackLevel(X, 3);
    PackLevel(X, 4);
    PackNone(X);
  }

  /** The body of main between reading the coordinates and printing: X is transposed in place and
      its 15 bits are collected, the second factor of each term being the shift 1 << position. */
  method HilbertInteger(X: array<nat>) returns (H: nat)
    requires X.Length == 3
    modifies X
    ensures X[..] == TransposeOf(old(X[..]), 5)
    ensures H == Rank(old(X[..]), 5)
    ensures InRange(old(X[..]), 5) ==> H < Vol(3, 5) && PointAt(3, 5, H) == old(X[..])
  {
    hide BitAt, Pack, PointAt, TransposeOf;
    AxesToTranspose(X, BITS, DIMS);
    assert X[..DIMS] == X[..] && old(X[..DIMS]) == old(X[..]);
    H := BitAt(X[2], 0) * 1    + BitAt(X[1], 0) * 2    + BitAt(X[0], 0) * 4 +
         BitAt(X[2], 1) * 8    + BitAt(X[1], 1) * 16   + BitAt(X[0], 1) * 32 +
         BitAt(X[2], 2) * 64   + BitAt(X[1], 2) * 128  + BitAt(X[0], 2) * 256 +
         BitAt(X[2], 3) * 512  + BitAt(X[1], 3) * 1024 + BitAt(X[0], 3) * 2048 +
         BitAt(X[2], 4) * 4096 + BitAt(X[1], 4) * 8192 + BitAt(X[0], 4) * 16384;
    PackFiveLevels(X[..]);
    if InRange(old(X[..]), BITS) { PointOfRank(old(X[..]), BITS); }
  }

  // ---- coordinates from node names ----------------------------------------------------------

  /** One digit of a name suffix: 0-9 and A-Z count up from 0, anything else is -1. */
  function CharToCoord(c: char): int {
    if '0' <= c <= '9' then c as int - '0' as int
    else if 'A' <= c <= 'Z' then c as int - 'A' as int + 10
    else -1
  }

  /** The coordinate characters in the order of their values. */
  const ALPHABET: string := "0123456789ABCDEFGHIJKLMNOPQRSTUVWXYZ"

  lemma AlphabetAt(v: nat)
    requires v < 36
    ensures |ALPHABET| == 36
    ensures ALPHABET[v] as int == if v < 10 then '0' as int + v else 'A' as int + (v - 10)
  {}

  /** The value of a character is its place in the alphabet, and -1 for every other character. */
  lemma CharToCoordIsPlace(c: char)
    ensures |ALPHABET| == 36
    ensures forall v :: 0 <= v < 36 ==> CharToCoord(ALPHABET[v]) == v
    ensures c !in ALPHABET ==> CharToCoord(c) == -1
  {
    forall v | 0 <= v < 36 ensures CharToCoord(ALPHABET[v]) == v { AlphabetAt(v); }
    if CharToCoord(c) >= 0 { AlphabetAt(CharToCoord(c)); }
  }

  /** A digit, or a letter up to the given one. */
  predicate Among(c: char, last: char) {
    '0' <= c <= '9' || 'A' <= c <= last
  }

  /** The last three characters of the name are digits or letters up to the given one. */
  predicate EndsIn(name: string, last: char) {
    && |name| >= 3
    && Among(name[|name| - 3], last) && Among(name[|name| - 2], last) && Among(name[|name| - 1], last)
  }

  /** Coordinate along axis k, read from the last three characters of the name. */
  function Axis(name: string, k: nat): int
    requires |name| >= DIMS && k < DIMS
  {
    CharToCoord(name[|name| - DIMS + k])
  }

  /** A name that ends in three coordinates of the 32 x 32 x 32 torus. */
  predicate ValidName(name: string) {
    |name| >= DIMS && forall k :: 0 <= k < DIMS ==> 0 <= Axis(name, k) <= 31
  }

  /** All three coordinates lie between 0 and c. */
  predicate AxesUpTo(name: string, c: int)
    requires |name| >= DIMS
  {
    forall k :: 0 <= k < DIMS ==> 0 <= Axis(name, k) <= c
  }

  lemma AmongByValue(ch: char, c: int)
    requires 31 <= c <= 35
    ensures 0 <= CharToCoord(ch) <= c <==> Among(ch, "VWXYZ"[c - 31])
  {}

  /** Coordinates up to 31, 32, 33, 34, 35 are spelled with letters up to V, W, X, Y, Z. */
  lemma AxesSpelled(name: string, c: int)
    requires |name| >= 3 && 31 <= c <= 35
    ensures AxesUpTo(name, c) <==> EndsIn(name, "VWXYZ"[c - 31])
  {
    hide CharToCoord, Among;
    var last := "VWXYZ"[c - 31];
    AmongByValue(name[|name| - 3], c);
    AmongByValue(name[|name| - 2], c);
    AmongByValue(name[|name| - 1], c);
    assert Axis(name, 0) == CharToCoord(name[|name| - 3]);
    assert Axis(name, 1) == CharToCoord(name[|name| - 2]);
    assert Axis(name, 2) == CharToCoord(name[|name| - 1]);
  }

  /** Valid names are those that end in 0-9 and A-V. */
  lemma ValidNameSpelled(name: string)
    ensures ValidName(name) <==> EndsIn(name, 'V')
  {
    hide Axis, Among;
    if |name| >= 3 { AxesSpelled(name, 31); }
  }

  function Position(name: string): (X: seq<nat>)
    requires ValidName(name)
    ensures |X| == DIMS
  {
    [Axis(name, 0), Axis(name, 1), Axis(name, 2)]
  }

  /** X is where the last three characters of the name, as places in the alphabet, say. */
  ghost predicate Spells(X: seq<nat>, name: string) {
    && |X| == 3 && |name| >= 3 && |ALPHABET| == 36
    && X[0] < 36 && ALPHABET[X[0]] == name[|name| - 3]
    && X[1] < 36 && ALPHABET[X[1]] == name[|name| - 2]
    && X[2] < 36 && ALPHABET[X[2]] == name[|name| - 1]
  }

  lemma CharOfValue(ch: char)
    requires 0 <= CharToCoord(ch) < 36
    ensures |ALPHABET| == 36 && ALPHABET[CharToCoord(ch)] == ch
  {
    AlphabetAt(CharToCoord(ch));
  }

  lemma PositionSpelled(name: string)
    requires ValidName(name)
    ensures Spells(Position(name), name)
  {
    hide CharToCoord;
    var X := Position(name);
    assert X[0] == Axis(name, 0) && X[1] == Axis(name, 1) && X[2] == Axis(name, 2);
    CharOfValue(name[|name| - 3]);
    CharOfValue(name[|name| - 2]);
    CharOfValue(name[|name| - 1]);
  }

  lemma PositionInRange(name: string)
    requires ValidName(name)
    ensures InRange(Position(name), 5)
  {
    assert Pow2(5) == 2 * Pow2(4) == 4 * Pow2(3) == 8 * Pow2(2) == 16 * Pow2(1) == 32 * Pow2(0) == 32;
  }

  class NodeRecord {
    const name: string
    var nodeRank: nat

    constructor (name: string)
      ensures this.name == name && nodeRank == 0
    {
      this.name := name;
      nodeRank := 0;
    }
  }

  /** The three fatal errors, each of which ends the program. */
  datatype Outcome = Ranked | NoSuffix(name: string) | BadSuffix(name: string) | TooFar(coord: nat)

  /** The name of the first node that does not end in three coordinate characters. */
  ghost predicate FirstFault(name: string, nodes: seq<NodeRecord>) {
    exists m :: 0 <= m < |nodes| && nodes[m].name == name
      && forall l :: 0 <= l < m ==> EndsIn(nodes[l].name, 'Z')
  }

  /** Why no ranks are given: the first name without coordinates, or else the largest coordinate,
      if that is beyond 31. */
  ghost predicate Explains(r: Outcome, nodes: seq<NodeRecord>) {
    match r
    case Ranked => true
    case NoSuffix(name) => |name| < 3 && FirstFault(name, nodes)
    case BadSuffix(name) => |name| >= 3 && !EndsIn(name, 'Z') && FirstFault(name, nodes)
    case TooFar(c) =>
      && 32 <= c <= 35
      && (forall m :: 0 <= m < |nodes| ==> EndsIn(nodes[m].name, "VWXYZ"[c - 31]))
      && exists m :: 0 <= m < |nodes| && !EndsIn(nodes[m].name, "VWXYZ"[c - 32])
  }

  /** Coordinates of the first i nodes, three after three. */
  ghost predicate Holds(coords: seq<int>, nodes: seq<NodeRecord>, i: nat)
    requires i <= |nodes|
  {
    && |coords| >= DIMS * i
    && (forall m :: 0 <= m < i ==> |nodes[m].name| >= DIMS)
    && forall m, k :: 0 <= m < i && 0 <= k < DIMS ==> coords[DIMS * m + k] == Axis(nodes[m].name, k)
  }

  /** Reads the coordinates of one node into three places from inx on. */
  method ReadNode(name: string, coords: array<int>, inx: nat, max: nat) returns (r: Outcome, maxCoord: nat)
    requires inx + DIMS <= coords.Length
    modifies coords
    ensures forall t :: 0 <= t < coords.Length && !(inx <= t < inx + DIMS) ==> coords[t] == old(coords[t])
    ensures r in {Ranked, NoSuffix(name), BadSuffix(name)}
    ensures r.NoSuffix? <==> |name| < 3
    ensures r.BadSuffix? <==>
      && |name| >= 3
      && !(Among(name[|name| - 3], 'Z') && Among(name[|name| - 2], 'Z') && Among(name[|name| - 1], 'Z'))
    ensures r.Ranked? ==> forall k :: 0 <= k < DIMS ==> coords[inx + k] == Axis(name, k) && 0 <= Axis(name, k) <= maxCoord
    ensures r.Ranked? ==> maxCoord >= max && (maxCoord == max || exists k :: 0 <= k < DIMS && Axis(name, k) == maxCoord)
  {
    var j := |name|;
    maxCoord := max;
    if j < DIMS {
      return NoSuffix(name), max;
    }
    AxesSpelled(name, 35);
    var coordInx := inx;
    var k := DIMS;
    while k != 0
      invariant 0 <= k <= DIMS && coordInx == inx + (DIMS - k)
      invariant forall t :: 0 <= t < coords.Length && !(inx <= t < inx + DIMS) ==> coords[t] == old(coords[t])
      invariant forall a :: 0 <= a < DIMS - k ==> coords[inx + a] == Axis(name, a) && 0 <= Axis(name, a) <= maxCoord
      invariant maxCoord >= max && (maxCoord == max || exists a :: 0 <= a < DIMS && Axis(name, a) == maxCoord)
    {
      coords[coordInx] := CharToCoord(name[j - k]);
      assert coords[coordInx] == Axis(name, DIMS - k);
      if coords[coordInx] < 0 {
        return BadSuffix(name), max;
      }
      maxCoord := if maxCoord < coords[coordInx] then coords[coordInx] else maxCoord;
      coordInx := coordInx + 1;
      k := k - 1;
    }
    return Ranked, maxCoord;
  }

  lemma AxisBound(name: string, k: nat)
    requires |name| >= DIMS && k < DIMS
    ensures Axis(name, k) <= 35
  {}

  lemma NotValid(name: string)
    requires |name| >= 3 && !EndsIn(name, 'Z')
    ensures !EndsIn(name, 'V')
  {}

  lemma Beyond(nodes: seq<NodeRecord>, c: nat)
    requires forall m :: 0 <= m < |nodes| ==> |nodes[m].name| >= DIMS && AxesUpTo(nodes[m].name, c)
    requires c > 31 && exists m, k :: 0 <= m < |nodes| && 0 <= k < DIMS && Axis(nodes[m].name, k) == c
    ensures Explains(TooFar(c), nodes)
    ensures exists m :: 0 <= m < |nodes| && !EndsIn(nodes[m].name, 'V')
  {
    hide Axis, Among;
    var m, k :| 0 <= m < |nodes| && 0 <= k < DIMS && Axis(nodes[m].name, k) == c;
    AxisBound(nodes[m].name, k);
    forall l | 0 <= l < |nodes| ensures EndsIn(nodes[l].name, "VWXYZ"[c - 31]) { AxesSpelled(nodes[l].name, c); }
    AxesSpelled(nodes[m].name, c - 1);
    AxesSpelled(nodes[m].name, 31);
  }

  /** The first loop: reads and checks the coordinates of all nodes. */
  method ReadCoordinates(nodes: seq<NodeRecord>, coords: array<int>) returns (r: Outcome)
    requires coords.Length == DIMS * |nodes|
    modifies coords
    ensures r.Ranked? <==> forall m :: 0 <= m < |nodes| ==> EndsIn(nodes[m].name, 'V')
    ensures r.Ranked? ==> Holds(coords[..], nodes, |nodes|)
    ensures r.BadSuffix? ==> var n := |r.name|;
      && n >= 3
      && !(Among(r.name[n - 3], 'Z') && Among(r.name[n - 2], 'Z') && Among(r.name[n - 1], 'Z'))
    ensures Explains(r, nodes)
  {
    hide Axis, Among;
    var maxCoord: nat := 0;
    var i := 0;
    while i < |nodes|
      invariant 0 <= i <= |nodes|
      invariant Holds(coords[..], nodes, i)
      invariant forall m :: 0 <= m < i ==> AxesUpTo(nodes[m].name, maxCoord) && EndsIn(nodes[m].name, 'Z')
      invariant maxCoord > 0 ==> exists m, k :: 0 <= m < i && 0 <= k < DIMS && Axis(nodes[m].name, k) == maxCoord
    {
      ghost var before, max := coords[..], maxCoord;
      r, maxCoord := ReadNode(nodes[i].name, coords, DIMS * i, maxCoord);
      if !r.Ranked? {
        if |nodes[i].name| >= 3 { NotValid(nodes[i].name); }
        return;
      }
      forall m, k | 0 <= m < i && 0 <= k < DIMS ensures coords[..][DIMS * m + k] == Axis(nodes[m].name, k) {
        assert coords[..][DIMS * m + k] == before[DIMS * m + k];
      }
      i := i + 1;
    }
    if maxCoord > 31 {
      Beyond(nodes, maxCoord);
      return TooFar(maxCoord);
    }
    forall m | 0 <= m < |nodes| ensures EndsIn(nodes[m].name, 'V') { AxesSpelled(nodes[m].name, 31); }
    return Ranked;
  }

  /** The second loop: turns the coordinates into ranks. */
  method AssignRanks(nodes: seq<NodeRecord>, coords: array<int>)
    requires forall m :: 0 <= m < |nodes| ==> ValidName(nodes[m].name)
    requires Holds(coords[..], nodes, |nodes|)
    modifies nodes
    ensures forall m :: 0 <= m < |nodes| ==> nodes[m].nodeRank == Rank(Position(nodes[m].name), 5)
  {
    hide Axis, Rank, TransposeOf, PointAt;
    var coordInx := 0;
    var hilbert := new nat[DIMS];
    var i := 0;
    while i < |nodes|
      invariant 0 <= i <= |nodes| && coordInx == DIMS * i
      invariant forall m :: 0 <= m < i ==> nodes[m].nodeRank == Rank(Position(nodes[m].name), 5)
    {
      var j := 0;
      while j < DIMS
        invariant 0 <= j <= DIMS && coordInx == DIMS * i + j
        invariant forall k :: 0 <= k < j ==> hilbert[k] == Axis(nodes[i].name, k)
        invariant forall m :: 0 <= m < i ==> nodes[m].nodeRank == Rank(Position(nodes[m].name), 5)
      {
        assert coords[..][DIMS * i + j] == Axis(nodes[i].name, j) >= 0;
        hilbert[j] := coords[coordInx];
        coordInx := coordInx + 1;
        j := j + 1;
      }
      assert hilbert[..] == Position(nodes[i].name);
      nodes[i].nodeRank := HilbertInteger(hilbert);
      i := i + 1;
    }
  }

  lemma RankOfName(name: string)
    requires ValidName(name)
    ensures Rank(Position(name), 5) < Vol(3, 5)
    ensures Spells(PointAt(3, 5, Rank(Position(name), 5)), name)
  {
    hide Axis, Rank, Position, PointAt, Vol, Spells;
    PositionInRange(name);
    PositionSpelled(name);
    PointOfRank(Position(name), 5);
  }

  /** Ranks all nodes, or ends with a fatal error before any rank is set. */
  method NodesToHilbertCurve(nodes: seq<NodeRecord>) returns (r: Outcome)
    modifies nodes
    ensures r.Ranked? <==> forall m :: 0 <= m < |nodes| ==> EndsIn(nodes[m].name, 'V')
    ensures r.Ranked? ==> forall m :: 0 <= m < |nodes| ==>
      nodes[m].nodeRank < Vol(3, 5) && Spells(PointAt(3, 5, nodes[m].nodeRank), nodes[m].name)
    ensures !r.Ranked? ==> forall m :: 0 <= m < |nodes| ==> nodes[m].nodeRank == old(nodes[m].nodeRank)
    ensures Explains(r, nodes)
  {
    hide Axis, Rank, Position, Explains, EndsIn, PointAt, Vol, Spells, ValidName;
    var coords := new int[DIMS * |nodes|];
    r := ReadCoordinates(nodes, coords);
    if r.Ranked? {
      forall m | 0 <= m < |nodes| ensures ValidName(nodes[m].name) { ValidNameSpelled(nodes[m].name); }
      AssignRanks(nodes, coords);
      forall m | 0 <= m < |nodes|
        ensures nodes[m].nodeRank < Vol(3, 5) && Spells(PointAt(3, 5, nodes[m].nodeRank), nodes[m].name)
      {
        RankOfName(nodes[m].name);
      }
    }
  }

  // ---- what the ranking promises ---------------------------------------------------------------

  lemma PositionIsSuffix(name: string, other: string)
    requires ValidName(name) && ValidName(other)
    ensures Position(name) == Position(other) <==> name[|name| - 3..] == other[|other| - 3..]
  {
    hide CharToCoord;
    var X, Y, s, t := Position(name), Position(other), name[|name| - 3..], other[|other| - 3..];
    assert X[0] == CharToCoord(s[0]) && X[1] == CharToCoord(s[1]) && X[2] == CharToCoord(s[2]);
    assert Y[0] == CharToCoord(t[0]) && Y[1] == CharToCoord(t[1]) && Y[2] == CharToCoord(t[2]);
    CharOfValue(s[0]);
    CharOfValue(s[1]);
    CharOfValue(s[2]);
    CharOfValue(t[0]);
    CharOfValue(t[1]);
    CharOfValue(t[2]);
    if X == Y { assert s == [s[0], s[1], s[2]] == [t[0], t[1], t[2]] == t; }
  }

  /** Ranks fit into 15 bits, and two nodes share a rank only if their names share the suffix. */
  lemma RanksSeparateNodes(name: string, other: string)
    requires ValidName(name) && ValidName(other)
    ensures Rank(Position(name), 5) < 32768
    ensures Rank(Position(name), 5) == Rank(Position(other), 5)
      <==> name[|name| - 3..] == other[|other| - 3..]
  {
    hide Rank, Position, Axis;
    var X, Y := Position(name), Position(other);
    PositionInRange(name);
    PositionInRange(other);
    PointOfRank(X, 5);
    PointOfRank(Y, 5);
    PackLevel(X, 0);
    PackLevel(X, 1);
    PackLevel(X, 2);
    PackLevel(X, 3);
    PackLevel(X, 4);
    PackNone(X);
    PositionIsSuffix(name, other);
  }

  /** Nodes with consecutive ranks are joined by a link of the torus grid. */
  lemma ConsecutiveRanksAreLinked(name: string, other: string)
    requires ValidName(name) && ValidName(other)
    requires Rank(Position(other), 5) == Rank(Position(name), 5) + 1
    ensures Neighbours(Position(name), Position(other))
  {
    hide Rank, Position, PointAt, Vol, Neighbours;
    PositionInRange(name);
    PositionInRange(other);
    PointOfRank(Position(name), 5);
    PointOfRank(Position(other), 5);
    UnitStep(3, 5, Rank(Position(name), 5));
  }
}
