/** The packed win/draw/loss plane of a sector: two bits a slot, four slots a byte. */
module WdlPlane {
  import opened Bits
  import opened Collapse
  import opened Symmetry
  import opened Orbits
  import opened Evals
  import opened SectorData
  import opened PerfectHasher

  datatype Option<T> = None | Some(value: T)

  // ---------------------------------------------------------------- packed codes

  /** (byte >> shift) & 0b11, shift = 2 * place. */
  function CodeIn(b: nat, place: nat): nat { Low(Shr(b, 2 * place), 2) }

  /** byte & !(0b11 << shift) | code << shift. */
  function PutCode(b: nat, place: nat, code: nat): nat
    requires place < 4
  {
    MaskFits(place);
    Or(And(b, 255 - Shl(3, 2 * place)), Shl(code, 2 * place))
  }

  lemma MaskFits(place: nat)
    requires place < 4
    ensures Shl(3, 2 * place) < Pow2(8) == 256
  {}

  lemma PutCodeBit(b: nat, place: nat, code: nat, i: nat)
    requires place < 4 && code < 4 && i < 8
    ensures Bit(PutCode(b, place, code), i)
        <==> if 2 * place <= i < 2 * place + 2 then Bit(code, i - 2 * place) else Bit(b, i)
  {
    MaskFits(place);
    hide Or, And, Shl, Pow2;
    OrBit(And(b, 255 - Shl(3, 2 * place)), Shl(code, 2 * place), i);
    AndBit(b, 255 - Shl(3, 2 * place), i);
    NotBit(Shl(3, 2 * place), 8, i);
    ShlBit(3, 2 * place, i);
    ShlBit(code, 2 * place, i);
    if i >= 2 * place {
      TwoBits(3, i - 2 * place);
      TwoBits(code, i - 2 * place);
    }
  }

  lemma TwoBits(c: nat, i: nat)
    requires c < 4
    ensures i >= 2 ==> !Bit(c, i)
    ensures c == 3 && i < 2 ==> Bit(c, i)
  {
    if i >= 2 {
      assert Pow2(2) == 4;
      BitAbove(c, 2, i);
    }
  }

  lemma {:induction false} PutCodeFits(b: nat, place: nat, code: nat)
    requires b < 256 && place < 4 && code < 4
    ensures PutCode(b, place, code) < 256
  {
    MaskFits(place);
    CodeFits(code, place);
    var kept := And(b, 255 - Shl(3, 2 * place));
    forall i: nat | 8 <= i ensures !Bit(kept, i) {
      AndBit(b, 255 - Shl(3, 2 * place), i);
      BitAbove(b, 8, i);
    }
    NoBitsAbove(kept, 8);
    OrBelow(kept, Shl(code, 2 * place), 8);
  }

  lemma CodeFits(code: nat, place: nat)
    requires place < 4 && code < 4
    ensures Shl(code, 2 * place) < Pow2(8)
  {}

  /** Writing one place changes that place only. */
  lemma PutThenRead(b: nat, place: nat, code: nat, other: nat)
    requires place < 4 && code < 4 && other < 4
    ensures CodeIn(PutCode(b, place, code), other) == if other == place then code else CodeIn(b, other)
  {
    var r := PutCode(b, place, code);
    var c := if other == place then code else CodeIn(b, other);
    assert Pow2(2) == 4;
    LowBound(Shr(r, 2 * other), 2);
    LowBound(Shr(b, 2 * other), 2);
    forall i: nat | i < 2 ensures Bit(CodeIn(r, other), i) == Bit(c, i) {
      hide PutCode, Low, Shr, Bit;
      LowBit(Shr(r, 2 * other), 2, i);
      ShrBit(r, 2 * other, i);
      LowBit(Shr(b, 2 * other), 2, i);
      ShrBit(b, 2 * other, i);
      PutCodeBit(b, place, code, i + 2 * other);
    }
    BitsDetermineBelow(CodeIn(r, other), c, 2);
  }

  // ---------------------------------------------------------------- the plane

  function DivCeil4(n: nat): nat { (n + 3) / 4 }

  /** The code of slot index. */
  function CodeAt(bits: seq<nat>, index: nat): nat
    requires index / 4 < |bits|
  {
    CodeIn(bits[index / 4], index % 4)
  }

  function SetCode(bits: seq<nat>, index: nat, code: nat): seq<nat>
    requires index / 4 < |bits|
  {
    bits[index / 4 := PutCode(bits[index / 4], index % 4, code)]
  }

  lemma SetThenRead(bits: seq<nat>, index: nat, code: nat, j: nat)
    requires index / 4 < |bits| && j / 4 < |bits| && code < 4
    ensures CodeAt(SetCode(bits, index, code), j) == if j == index then code else CodeAt(bits, j)
  {
    if j / 4 == index / 4 {
      PutThenRead(bits[index / 4], index % 4, code, j % 4);
    }
  }

  ghost predicate AreBytes(bits: seq<nat>) {
    forall i :: 0 <= i < |bits| ==> bits[i] < 256
  }

  /** The absolute value of an entry read as win 1, loss -1, or draw 0. */
  function WdlOf(absolute: int, virtWin: int, virtLoss: int): int {
    if absolute == virtWin then 1 else if absolute == virtLoss then -1 else 0
  }

  ghost function ValuesOf(bits: seq<nat>, n: nat): (v: seq<int>)
    requires |bits| == DivCeil4(n)
  {
    seq(n, i requires 0 <= i < n => CodeAt(bits, i) - 1)
  }

  /** The fields of a plane, as a file holds them. */
  datatype Packed = Packed(hashCount: nat, bits: seq<nat>)

  class Plane {
    const hashCount: nat
    var bits: seq<nat>

    /** Every slot holds one of the three codes. */
    ghost predicate Valid()
      reads this
    {
      && |bits| == DivCeil4(hashCount) && AreBytes(bits)
      && forall i: nat :: i < hashCount ==> CodeAt(bits, i) <= 2
    }

    /** The values of the slots. */
    ghost function Values(): (v: seq<int>)
      requires Valid()
      reads this
    {
      ValuesOf(bits, hashCount)
    }

    /** A plane of losses, as the zeroed buffer reads. */
    constructor Zeroed(n: nat)
      ensures Valid() && hashCount == n && Values() == seq(n, _ => -1)
    {
      hashCount := n;
      bits := seq(DivCeil4(n), _ => 0);
      new;
      ZeroCodes(bits, n);
    }

    /** The record of a file taken over as it is. */
    constructor Of(p: Packed)
      ensures hashCount == p.hashCount && bits == p.bits
    {
      hashCount, bits := p.hashCount, p.bits;
    }

    /** wdl_at; its two panics, on an index out of range and on a fourth code, are the requires. */
    method WdlAt(index: nat) returns (wdl: int)
      requires |bits| == DivCeil4(hashCount) && index < hashCount
      requires CodeAt(bits, index) <= 2
      ensures -1 <= wdl <= 1 && CodeAt(bits, index) == wdl + 1
      ensures Valid() ==> wdl == Values()[index]
    {
      var code := CodeIn(bits[index / 4], index % 4);
      wdl := if code == 0 then -1 else if code == 1 then 0 else 1;
    }

    /** set; its panic on other values is the requires. */
    method Set(index: nat, wdl: int)
      requires Valid() && index < hashCount
      requires -1 <= wdl <= 1
      modifies this
      ensures Valid() && Values() == old(Values())[index := wdl]
    {
      hide CodeIn, PutCode;
      var code := wdl + 1;
      PutCodeFits(bits[index / 4], index % 4, code);
      ghost var before := bits;
      bits := SetCode(bits, index, code);
      forall j: nat | j < hashCount ensures CodeAt(bits, j) == if j == index then code else CodeAt(before, j) {
        SetThenRead(before, index, code, j);
      }
    }
  }

  /** A valid plane has what wdl_at asks of every slot. */
  lemma CodeOf(p: Plane, index: nat)
    requires p.Valid() && index < p.hashCount
    ensures |p.bits| == DivCeil4(p.hashCount) && index / 4 < |p.bits| && CodeAt(p.bits, index) <= 2
  {
    hide CodeIn;
  }

  lemma ZeroCodes(bits: seq<nat>, n: nat)
    requires bits == seq(DivCeil4(n), _ => 0)
    ensures forall i: nat :: i < n ==> CodeAt(bits, i) == 0
  {
    forall i: nat | i < n ensures CodeAt(bits, i) == 0 {
      ZeroShift(2 * (i % 4));
    }
  }

  lemma {:induction false} ZeroShift(k: nat)
    ensures Shr(0, k) == 0 && CodeIn(0, 0) == 0
    decreases k
  {
    if k > 0 { ZeroShift(k - 1); }
    assert Low(0, 2) == 0 + 2 * Low(0, 1);
    assert Low(0, 1) == 0 + 2 * Low(0, 0);
  }

  // ---------------------------------------------------------------- building a plane

  /** build, from the decoded entries of the sector. None is a panic: a redirect names an
      operation out of range or leads to another redirect. */
  method Build(h: Hasher, evals: seq<RawEval>, sectorValue: int, virtWin: int, virtLoss: int) returns (r: Option<Plane>)
    requires h.Valid() && |evals| == HashCount(h.g, h.whites, h.blacks) == h.HashCountOf()
    ensures r.Some? <==> AllResolve(h.g, h.whites, h.blacks, evals)
    ensures r.Some? ==> fresh(r.value) && r.value.Valid() && r.value.hashCount == |evals|
    ensures r.Some? ==>
              forall i: nat :: i < |evals|
                 ==> SlotReads(h.g, h.whites, h.blacks, evals, sectorValue, virtWin, virtLoss, i, r.value.Values()[i])
  {
    hide Hasher.Valid, Group.Valid, HashCount, SlotResolves, SlotReads, Plane.Valid, WdlOf;
    var plane := new Plane.Zeroed(|evals|);
    for index := 0 to |evals|
      invariant fresh(plane) && plane.Valid() && plane.hashCount == |evals|
      invariant forall i: nat :: i < index
                  ==> SlotReads(h.g, h.whites, h.blacks, evals, sectorValue, virtWin, virtLoss, i, plane.Values()[i])
    {
      var raw := ReadSlot(h, evals, index);
      if raw.None? {
        return None;
      }
      WdlInRange(raw.value.key1 + sectorValue, virtWin, virtLoss);
      plane.Set(index, WdlOf(raw.value.key1 + sectorValue, virtWin, virtLoss));
      SlotReadsIs(h, evals, sectorValue, virtWin, virtLoss, index, raw.value);
    }
    AllReadIsResolved(h, evals, sectorValue, virtWin, virtLoss, plane.Values());
    r := Some(plane);
  }

  /** Slot i resolves, to an entry whose absolute value reads as wdl. */
  ghost predicate SlotReads(g: Group, whites: nat, blacks: nat, evals: seq<RawEval>,
                            sectorValue: int, virtWin: int, virtLoss: int, i: nat, wdl: int)
    requires g.Valid() && whites <= g.n && i < |evals| == HashCount(g, whites, blacks)
  {
    && SlotResolves(g, whites, blacks, evals, i)
    && wdl == WdlOf(Resolved(g, whites, blacks, evals, i).key1 + sectorValue, virtWin, virtLoss)
  }

  lemma SlotReadsIs(h: Hasher, evals: seq<RawEval>, sectorValue: int, virtWin: int, virtLoss: int, i: nat, raw: RawEval)
    requires h.Valid() && i < |evals| == HashCount(h.g, h.whites, h.blacks)
    requires SlotResolves(h.g, h.whites, h.blacks, evals, i) && raw == Resolved(h.g, h.whites, h.blacks, evals, i)
    ensures SlotReads(h.g, h.whites, h.blacks, evals, sectorValue, virtWin, virtLoss, i,
            WdlOf(raw.key1 + sectorValue, virtWin, virtLoss))
  {}

  lemma AllReadIsResolved(h: Hasher, evals: seq<RawEval>, sectorValue: int, virtWin: int, virtLoss: int, v: seq<int>)
    requires h.Valid() && |v| == |evals| == HashCount(h.g, h.whites, h.blacks)
    requires forall i: nat :: i < |evals|
               ==> SlotReads(h.g, h.whites, h.blacks, evals, sectorValue, virtWin, virtLoss, i, v[i])
    ensures AllResolve(h.g, h.whites, h.blacks, evals)
  {
    hide Hasher.Valid, Group.Valid, HashCount, SlotResolves, Resolved, TargetSlot;
    forall i: nat | i < |evals| ensures SlotResolves(h.g, h.whites, h.blacks, evals, i) {
      assert SlotReads(h.g, h.whites, h.blacks, evals, sectorValue, virtWin, virtLoss, i, v[i]);
    }
  }

  lemma WdlInRange(absolute: int, virtWin: int, virtLoss: int)
    ensures -1 <= WdlOf(absolute, virtWin, virtLoss) <= 1
  {}

  /** The entry of a slot, one redirect followed; None is a panic. */
  method ReadSlot(h: Hasher, evals: seq<RawEval>, index: nat) returns (raw: Option<RawEval>)
    requires h.Valid() && index < |evals| == HashCount(h.g, h.whites, h.blacks) == h.HashCountOf()
    ensures raw.Some? <==> SlotResolves(h.g, h.whites, h.blacks, evals, index)
    ensures raw.Some? ==> raw.value == Resolved(h.g, h.whites, h.blacks, evals, index)
  {
    raw := Some(evals[index]);
    if evals[index].IsRedirect() {
      var operation := evals[index].Operation();
      if operation >= |h.g.ops| {
        return None;
      }
      var board := InverseBoardAt(h, index);
      DirectOfInverse(h.g, h.whites, h.blacks, index);
      T48Board(h.g, operation, h.whites, h.blacks, board);
      var redirected := h.g.T48(operation, board);
      TargetInRange(h.g, h.whites, h.blacks, evals, index);
      hide Hasher.Valid, Group.Valid, HashCount, IsBoard, InverseBoard, Group.T48, DirectIndex;
      var slot := DirectHashIndex(h, redirected);
      if evals[slot].IsRedirect() {
        return None;
      }
      raw := Some(evals[slot]);
    }
  }

  // ---------------------------------------------------------------- the cache file

  const PLANE_MAGIC: seq<nat> := [0x53, 0x4D, 0x57, 0x44]
  const PLANE_VERSION: nat := 1
  const PLANE_HEADER_LEN: nat := 13

  /** The k low bytes of n, least significant first. */
  function ToLe(n: nat, k: nat): (s: seq<nat>)
    ensures |s| == k && AreBytes(s)
  {
    if k == 0 then [] else [n % 256] + ToLe(n / 256, k - 1)
  }

  function FromLe(s: seq<nat>): nat {
    if s == [] then 0 else s[0] + 256 * FromLe(s[1..])
  }

  lemma {:induction false} LeRoundTrip(n: nat, k: nat)
    requires n < Pow2(8 * k)
    ensures FromLe(ToLe(n, k)) == n
    decreases k
  {
    if k > 0 {
      assert Pow2(8 * k) == 256 * Pow2(8 * (k - 1)) by { EightDoublings(8 * (k - 1)); }
      LeRoundTrip(n / 256, k - 1);
      assert ToLe(n, k)[1..] == ToLe(n / 256, k - 1);
    }
  }

  lemma EightDoublings(j: nat)
    ensures Pow2(j + 8) == 256 * Pow2(j)
  {
    assert Pow2(j + 8) == 4 * Pow2(j + 6);
    assert Pow2(j + 6) == 4 * Pow2(j + 4);
    assert Pow2(j + 4) == 4 * Pow2(j + 2);
    assert Pow2(j + 2) == 4 * Pow2(j);
  }

  lemma {:induction false} LeReads(s: seq<nat>)
    requires AreBytes(s)
    ensures ToLe(FromLe(s), |s|) == s
    ensures FromLe(s) < Pow2(8 * |s|)
  {
    hide Pow2, FromLe;
    if s == [] {
      LeNothing();
    } else {
      LeReads(s[1..]);
      assert s == [s[0]] + s[1..];
      EightDoublings(8 * (|s| - 1));
      LeStep(s, FromLe(s[1..]), Pow2(8 * (|s| - 1)));
    }
  }

  lemma LeNothing()
    ensures FromLe([]) == 0 && Pow2(0) == 1
  {}

  lemma LeStep(s: seq<nat>, rest: nat, p: nat)
    requires s != [] && s[0] < 256 && rest == FromLe(s[1..]) && rest < p
    ensures FromLe(s) % 256 == s[0] && FromLe(s) / 256 == rest && FromLe(s) < 256 * p
  {}

  /** to_bytes. */
  function ToBytes(p: Packed): seq<nat> {
    PLANE_MAGIC + [PLANE_VERSION] + ToLe(p.hashCount, 8) + p.bits
  }

  datatype ParseResult = Parsed(plane: Packed) | InvalidHeader | InvalidLength(expected: nat, actual: nat)

  /** from_bytes. */
  function FromBytes(bytes: seq<nat>): ParseResult {
    if |bytes| < PLANE_HEADER_LEN || bytes[0..4] != PLANE_MAGIC then InvalidHeader
    else if bytes[4] != PLANE_VERSION then InvalidHeader
    else
      var hashCount := FromLe(bytes[5..13]);
      var expected := PLANE_HEADER_LEN + DivCeil4(hashCount);
      if |bytes| != expected then InvalidLength(expected, |bytes|)
      else Parsed(Packed(hashCount, bytes[PLANE_HEADER_LEN..]))
  }

  lemma HeaderParts(p: Packed)
    ensures var b := ToBytes(p);
            && |b| == 13 + |p.bits| && b[0..4] == PLANE_MAGIC && b[4] == PLANE_VERSION
            && b[5..13] == ToLe(p.hashCount, 8) && b[13..] == p.bits
  {
    var b := ToBytes(p);
    assert b[5..13] == ToLe(p.hashCount, 8);
  }

  /** A plane whose buffer has the length for its count survives the cache file. */
  lemma FromToBytes(p: Packed)
    requires p.hashCount < Pow2(64) && |p.bits| == DivCeil4(p.hashCount)
    ensures FromBytes(ToBytes(p)) == Parsed(p)
  {
    HeaderParts(p);
    LeRoundTrip(p.hashCount, 8);
  }

  /** Accepted bytes are exactly what the plane read from them writes back. */
  lemma ToFromBytes(bytes: seq<nat>)
    requires AreBytes(bytes) && FromBytes(bytes).Parsed?
    ensures ToBytes(FromBytes(bytes).plane) == bytes
    ensures |FromBytes(bytes).plane.bits| == DivCeil4(FromBytes(bytes).plane.hashCount)
    ensures FromBytes(bytes).plane.hashCount < Pow2(64)
  {
    hide FromLe, ToLe, Pow2;
    LeReads(bytes[5..13]);
    assert bytes == bytes[0..4] + [bytes[4]] + bytes[5..13] + bytes[13..];
  }

  // ---------------------------------------------------------------- planes in files

  /** No slot holds the fourth code, on which wdl_at panics. */
  ghost predicate Readable(p: Packed)
    requires |p.bits| == DivCeil4(p.hashCount)
  {
    forall i: nat :: i < p.hashCount ==> CodeAt(p.bits, i) <= 2
  }

  /** to_bytes of a plane. */
  method Save(p: Plane) returns (bytes: seq<nat>)
    requires p.Valid()
    ensures bytes == ToBytes(Packed(p.hashCount, p.bits)) && AreBytes(bytes)
    ensures |bytes| == 13 + (p.hashCount + 3) / 4 && bytes[13..] == p.bits && bytes[4] == 1
    ensures bytes[0] == 'S' as int && bytes[1] == 'M' as int && bytes[2] == 'W' as int && bytes[3] == 'D' as int
  {
    bytes := ToBytes(Packed(p.hashCount, p.bits));
    HeaderParts(Packed(p.hashCount, p.bits));
    MagicIs(bytes);
  }

  lemma MagicIs(bytes: seq<nat>)
    requires |bytes| >= 4 && bytes[0..4] == PLANE_MAGIC
    ensures bytes[0] == 'S' as int && bytes[1] == 'M' as int && bytes[2] == 'W' as int && bytes[3] == 'D' as int
  {
    assert bytes[0] == bytes[0..4][0] && bytes[1] == bytes[0..4][1];
    assert bytes[2] == bytes[0..4][2] && bytes[3] == bytes[0..4][3];
  }

  /** from_bytes: the codes are not looked at, so the plane is a valid one exactly when every
      slot in the file holds one of the three codes. */
  method Load(bytes: seq<nat>) returns (r: Option<Plane>)
    requires AreBytes(bytes)
    ensures r.Some? <==> FromBytes(bytes).Parsed?
    ensures r.Some? ==> fresh(r.value) && Packed(r.value.hashCount, r.value.bits) == FromBytes(bytes).plane
    ensures r.Some? ==> |r.value.bits| == DivCeil4(r.value.hashCount)
    ensures r.Some? ==> (r.value.Valid() <==> Readable(FromBytes(bytes).plane))
  {
    hide FromLe, CodeIn;
    var parsed := FromBytes(bytes);
    if !parsed.Parsed? {
      return None;
    }
    var plane := new Plane.Of(parsed.plane);
    r := Some(plane);
  }

  /** A plane written to the cache file and read again has the same values. */
  method SaveThenLoad(p: Plane) returns (q: Plane)
    requires p.Valid() && p.hashCount < Pow2(64)
    ensures fresh(q) && q.Valid() && q.hashCount == p.hashCount && q.Values() == p.Values()
  {
    hide ToBytes, FromBytes, CodeIn, Pow2;
    FromToBytes(Packed(p.hashCount, p.bits));
    var bytes := Save(p);
    var loaded := Load(bytes);
    q := loaded.value;
  }

  /** A file with a slot of the fourth code is accepted. */
  lemma FourthCodeIsAccepted()
    ensures var p := Packed(1, [3]);
            && FromBytes(ToBytes(p)) == Parsed(p) && CodeAt(p.bits, 0) == 3 && !Readable(p)
  {
    var p := Packed(1, [3]);
    Pow2Strict(1, 64);
    FromToBytes(p);
    assert Low(3, 2) == 1 + 2 * Low(1, 1);
    assert CodeAt(p.bits, 0) == 3;
  }
}
