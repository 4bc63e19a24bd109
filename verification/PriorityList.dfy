/** The two-level priority bitmap of uC/OS-II (OS_LOWEST_PRIO <= 63): a group byte with one
    bit for each table byte, and one bit in the table for each priority.  The ready list and
    every event's wait list have this shape.  Its meaning is a set of priorities. */
module PriorityList {

  /** 1 << i in a byte. */
  function Bit(i: nat): bv8
    requires i < 8
  {
    if i == 0 then 0x01 else if i == 1 then 0x02 else if i == 2 then 0x04 else if i == 3 then 0x08
    else if i == 4 then 0x10 else if i == 5 then 0x20 else if i == 6 then 0x40 else 0x80
  }

  predicate BitSet(b: bv8, i: nat)
    requires i < 8
  {
    b & Bit(i) != 0
  }

  // ---------------------------------------------------------------- OSUnMapTbl

  const UN_MAP_TBL: seq<seq<nat>> := [
    [0, 0, 1, 0, 2, 0, 1, 0, 3, 0, 1, 0, 2, 0, 1, 0],
    [4, 0, 1, 0, 2, 0, 1, 0, 3, 0, 1, 0, 2, 0, 1, 0],
    [5, 0, 1, 0, 2, 0, 1, 0, 3, 0, 1, 0, 2, 0, 1, 0],
    [4, 0, 1, 0, 2, 0, 1, 0, 3, 0, 1, 0, 2, 0, 1, 0],
    [6, 0, 1, 0, 2, 0, 1, 0, 3, 0, 1, 0, 2, 0, 1, 0],
    [4, 0, 1, 0, 2, 0, 1, 0, 3, 0, 1, 0, 2, 0, 1, 0],
    [5, 0, 1, 0, 2, 0, 1, 0, 3, 0, 1, 0, 2, 0, 1, 0],
    [4, 0, 1, 0, 2, 0, 1, 0, 3, 0, 1, 0, 2, 0, 1, 0],
    [7, 0, 1, 0, 2, 0, 1, 0, 3, 0, 1, 0, 2, 0, 1, 0],
    [4, 0, 1, 0, 2, 0, 1, 0, 3, 0, 1, 0, 2, 0, 1, 0],
    [5, 0, 1, 0, 2, 0, 1, 0, 3, 0, 1, 0, 2, 0, 1, 0],
    [4, 0, 1, 0, 2, 0, 1, 0, 3, 0, 1, 0, 2, 0, 1, 0],
    [6, 0, 1, 0, 2, 0, 1, 0, 3, 0, 1, 0, 2, 0, 1, 0],
    [4, 0, 1, 0, 2, 0, 1, 0, 3, 0, 1, 0, 2, 0, 1, 0],
    [5, 0, 1, 0, 2, 0, 1, 0, 3, 0, 1, 0, 2, 0, 1, 0],
    [4, 0, 1, 0, 2, 0, 1, 0, 3, 0, 1, 0, 2, 0, 1, 0]]

  /** Entry b of OSUnMapTbl; the table is laid out in sixteen rows of sixteen. */
  function UnMap(b: bv8): nat {
    UN_MAP_TBL[b as nat / 16][b as nat % 16]
  }

  predicate LowestBit(b: bv8, i: nat) {
    i < 8 && BitSet(b, i) && forall j: nat :: j < i ==> !BitSet(b, j)
  }

  /** For every non-zero byte the table gives the position of its lowest set bit. */
  lemma UnMapIsLowestBit(b: bv8)
    requires b != 0
    ensures LowestBit(b, UnMap(b))
  {
    Nibbles(b);
    var high, low := b >> 4, b & 15;
    if low == 0 {
      FirstColumn(high);
    } else {
      FirstRow(low);
      RowsAgree(high as nat, low as nat);
    }
    LowestFromNibbles(b, UnMap(b));
  }

  lemma Nibbles(b: bv8)
    ensures (b >> 4) as nat < 16 && (b & 15) as nat < 16
    ensures UnMap(b) == UN_MAP_TBL[(b >> 4) as nat][(b & 15) as nat]
  {
    assert b as nat == (b >> 4) as nat * 16 + (b & 15) as nat;
  }

  lemma RowsAgree(i: nat, j: nat)
    requires i < 16 && 0 < j < 16
    ensures UN_MAP_TBL[i][j] == UN_MAP_TBL[0][j]
  {
  }

  lemma FirstRow(low: bv8)
    requires 0 < low < 16
    ensures UN_MAP_TBL[0][low as nat] < 4 && LowestBit(low, UN_MAP_TBL[0][low as nat])
  {
  }

  lemma FirstColumn(high: bv8)
    requires 0 < high < 16
    ensures 4 <= UN_MAP_TBL[high as nat][0] < 8 && LowestBit(high, UN_MAP_TBL[high as nat][0] - 4)
  {
  }

  lemma NibbleBits(b: bv8, j: nat)
    requires j < 4
    ensures BitSet(b, j) <==> BitSet(b & 15, j)
    ensures BitSet(b, j + 4) <==> BitSet(b >> 4, j)
  {
  }

  lemma LowestFromNibbles(b: bv8, i: nat)
    requires if b & 15 == 0 then 4 <= i < 8 && LowestBit(b >> 4, i - 4) else i < 4 && LowestBit(b & 15, i)
    ensures LowestBit(b, i)
  {
    forall j: nat | j < i ensures !BitSet(b, j) { NibbleBits(b, j % 4); }
    NibbleBits(b, i % 4);
  }

  // ---------------------------------------------------------------- single bytes

  lemma BitAlgebra(b: bv8, i: nat, j: nat)
    requires i < 8 && j < 8
    ensures BitSet(b | Bit(i), j) <==> i == j || BitSet(b, j)
    ensures BitSet(b & !Bit(i), j) <==> i != j && BitSet(b, j)
    ensures b | Bit(i) != 0
  {
  }

  lemma GroupBits(b: bv8, i: nat)
    requires i < 8
    ensures forall j: nat :: j < 8 ==> (BitSet(b | Bit(i), j) <==> i == j || BitSet(b, j))
    ensures forall j: nat :: j < 8 ==> (BitSet(b & !Bit(i), j) <==> i != j && BitSet(b, j))
  {
    forall j: nat | j < 8
      ensures BitSet(b | Bit(i), j) <==> i == j || BitSet(b, j)
      ensures BitSet(b & !Bit(i), j) <==> i != j && BitSet(b, j)
    {
      BitAlgebra(b, i, j);
    }
  }

  lemma ZeroByte(b: bv8)
    ensures b == 0 <==> forall i: nat :: i < 8 ==> !BitSet(b, i)
  {
    if b != 0 {
      UnMapIsLowestBit(b);
    }
  }

  // ---------------------------------------------------------------- the list

  datatype PrioList = PrioList(grp: bv8, tbl: seq<bv8>)

  /** Group bit y is set exactly when table byte y is not zero. */
  predicate WellFormed(l: PrioList) {
    && |l.tbl| <= 8
    && forall y: nat :: y < 8 ==> (BitSet(l.grp, y) <==> y < |l.tbl| && l.tbl[y] != 0)
  }

  predicate Member(l: PrioList, p: nat) {
    p < 8 * |l.tbl| && BitSet(l.tbl[p / 8], p % 8)
  }

  function Members(l: PrioList): set<nat> {
    set p: nat | p < 8 * |l.tbl| && Member(l, p)
  }

  function EmptyList(n: nat): PrioList {
    PrioList(0, seq(n, i => 0))
  }

  /** grp |= bitY; tbl[y] |= bitX */
  function Insert(l: PrioList, y: nat, bitX: bv8, bitY: bv8): PrioList
    requires y < |l.tbl|
  {
    PrioList(l.grp | bitY, l.tbl[y := l.tbl[y] | bitX])
  }

  /** tbl[y] &= ~bitX; and the group bit goes when the byte becomes zero */
  function Remove(l: PrioList, y: nat, bitX: bv8, bitY: bv8): PrioList
    requires y < |l.tbl|
  {
    var b := l.tbl[y] & !bitX;
    PrioList(if b == 0 then l.grp & !bitY else l.grp, l.tbl[y := b])
  }

  /** (y << 3) + x, with both looked up in OSUnMapTbl */
  function Highest(l: PrioList): nat
    requires WellFormed(l) && l.grp != 0
  {
    UnMapIsLowestBit(l.grp);
    var y := UnMap(l.grp);
    8 * y + UnMap(l.tbl[y])
  }

  lemma EmptyListOk(n: nat)
    requires n <= 8
    ensures WellFormed(EmptyList(n)) && Members(EmptyList(n)) == {}
  {
    ZeroByte(0);
  }

  lemma Position(y: nat, x: nat)
    requires x < 8
    ensures (8 * y + x) / 8 == y && (8 * y + x) % 8 == x
  {
  }

  lemma GroupZero(l: PrioList)
    requires WellFormed(l)
    ensures l.grp == 0 <==> Members(l) == {}
  {
    if l.grp != 0 {
      HighestIsLeast(l);
    } else {
      ZeroByte(0);
      forall p: nat | p < 8 * |l.tbl| ensures !Member(l, p) {
        assert !BitSet(l.grp, p / 8);
      }
    }
  }

  lemma MemberHasGroupBit(l: PrioList, p: nat)
    requires WellFormed(l) && Member(l, p)
    ensures BitSet(l.grp, p / 8)
  {
    ZeroByte(l.tbl[p / 8]);
  }

  lemma InsertOk(l: PrioList, p: nat)
    requires WellFormed(l) && p < 8 * |l.tbl|
    ensures var r := Insert(l, p / 8, Bit(p % 8), Bit(p / 8));
      WellFormed(r) && |r.tbl| == |l.tbl| && Members(r) == Members(l) + {p}
  {
    var r := Insert(l, p / 8, Bit(p % 8), Bit(p / 8));
    InsertWellFormed(l, p / 8, p % 8);
    forall q: nat | q < 8 * |l.tbl| ensures Member(r, q) <==> q == p || Member(l, q) {
      BitAlgebra(l.tbl[p / 8], p % 8, q % 8);
    }
  }

  lemma InsertWellFormed(l: PrioList, y: nat, x: nat)
    requires WellFormed(l) && y < |l.tbl| && x < 8
    ensures WellFormed(Insert(l, y, Bit(x), Bit(y)))
  {
    BitAlgebra(l.tbl[y], x, x);
    GroupBits(l.grp, y);
    GroupFollows(l, Insert(l, y, Bit(x), Bit(y)), y);
  }

  /** One table byte and its group bit changed together. */
  lemma GroupFollows(l: PrioList, r: PrioList, y: nat)
    requires WellFormed(l) && y < |l.tbl| == |r.tbl| && r.tbl == l.tbl[y := r.tbl[y]]
    requires forall z: nat :: z < 8 ==> (BitSet(r.grp, z) <==> if z == y then r.tbl[y] != 0 else BitSet(l.grp, z))
    ensures WellFormed(r)
  {
  }

  lemma RemoveOk(l: PrioList, p: nat)
    requires WellFormed(l) && p < 8 * |l.tbl|
    ensures var r := Remove(l, p / 8, Bit(p % 8), Bit(p / 8));
      WellFormed(r) && |r.tbl| == |l.tbl| && Members(r) == Members(l) - {p}
  {
    var r := Remove(l, p / 8, Bit(p % 8), Bit(p / 8));
    RemoveWellFormed(l, p / 8, p % 8);
    forall q: nat | q < 8 * |l.tbl| ensures Member(r, q) <==> q != p && Member(l, q) {
      BitAlgebra(l.tbl[p / 8], p % 8, q % 8);
    }
  }

  lemma RemoveWellFormed(l: PrioList, y: nat, x: nat)
    requires WellFormed(l) && y < |l.tbl| && x < 8
    ensures WellFormed(Remove(l, y, Bit(x), Bit(y)))
  {
    if l.tbl[y] == 0 { ByteStaysZero(x); }
    GroupBits(l.grp, y);
    GroupFollows(l, Remove(l, y, Bit(x), Bit(y)), y);
  }

  lemma ByteStaysZero(x: nat)
    requires x < 8
    ensures 0 & !Bit(x) == 0
  {
  }

  lemma LowestMember(l: PrioList, y: nat, x: nat)
    requires |l.tbl| <= 8 && y < |l.tbl| && WellFormed(l)
    requires LowestBit(l.grp, y) && LowestBit(l.tbl[y], x)
    ensures 8 * y + x in Members(l) && forall q :: q in Members(l) ==> 8 * y + x <= q
  {
    Position(y, x);
    assert Member(l, 8 * y + x);
    forall q | q in Members(l) ensures 8 * y + x <= q {
      MemberHasGroupBit(l, q);
    }
  }

  /** The two-level lookup finds the least member, so the most urgent priority. */
  lemma HighestIsLeast(l: PrioList)
    requires WellFormed(l) && l.grp != 0
    ensures Highest(l) in Members(l) && forall q :: q in Members(l) ==> Highest(l) <= q
  {
    UnMapIsLowestBit(l.grp);
    var y := UnMap(l.grp);
    UnMapIsLowestBit(l.tbl[y]);
    LowestMember(l, y, UnMap(l.tbl[y]));
  }
}
