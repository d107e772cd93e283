/** Values of positions as pairs of 16-bit keys: how a value is turned into the mover's value one
    turn earlier, and how values of one sector are compared. */
module Values {
  import Database

  /** Conversion to a 16-bit integer. */
  function Wrap16(x: int): (y: int)
    ensures -0x8000 <= y < 0x8000 && (y - x) % 0x10000 == 0
    ensures -0x8000 <= x < 0x8000 ==> y == x
  {
    (x + 0x8000) % 0x10000 - 0x8000
  }

  function Sign(x: int): int {
    if x < 0 then -1 else if x > 0 then 1 else 0
  }

  /** key1 is the value relative to its sector, key2 the distance or count. */
  datatype Elem = Elem(key1: int, key2: int) {

    predicate Fits() { -0x8000 <= key1 < 0x8000 }

    /** corr. */
    function Corr(c: int): Elem {
      var newKey1 := Wrap16(key1 + c);
      Elem(newKey1, Sign(newKey1 * key1) * key2)
    }

    /** undo_negate: from a position in a sector of value from to the position before it, in a
        sector of value to; entering a capture position adds no step. */
    function UndoNegate(from: int, to: int, step: bool): Elem {
      var a := Corr(to + from);
      Elem(Wrap16(-a.key1), if step then a.key2 + 1 else a.key2)
    }

    /** akey1: the value as seen from no sector. */
    function Akey1(from: int): int { Wrap16(key1 + from) }

    /** eval_elem2::operator<. */
    predicate Less(b: Elem) {
      if key1 != b.key1 then key1 < b.key1
      else if key1 < 0 then key2 < b.key2
      else if key1 > 0 then key2 > b.key2
      else false
    }
  }

  /** compare, for values of one sector. */
  function Compare(a: Elem, b: Elem): int {
    if a.key1 != b.key1 then (if a.key1 < b.key1 then -1 else 1)
    else if a.key1 < 0 then (if a.key2 == b.key2 then 0 else if a.key2 < b.key2 then -1 else 1)
    else if a.key1 > 0 then (if a.key2 == b.key2 then 0 else if a.key2 > b.key2 then -1 else 1)
    else 0
  }

  // ---------------------------------------------------------------- one turn back

  lemma SignOfProduct(x: int, y: int)
    ensures Sign(x * y) == Sign(x) * Sign(y)
  {
    if x > 0 && y > 0 { assert x * y > 0; }
    if x > 0 && y < 0 { assert x * -y > 0; }
    if x < 0 && y > 0 { assert -x * y > 0; }
    if x < 0 && y < 0 { assert -x * -y > 0; }
  }

  lemma WrapSame(x: int, y: int)
    requires (x - y) % 0x10000 == 0
    ensures Wrap16(x) == Wrap16(y)
  {}

  /** The absolute value is negated exactly, whatever overflows on the way. */
  lemma UndoNegatesAbsolute(e: Elem, from: int, to: int, step: bool)
    ensures e.UndoNegate(from, to, step).Akey1(to) == Wrap16(-e.Akey1(from))
  {
    var k := Wrap16(e.key1 + (to + from));
    assert (Wrap16(-k) + to - (-(e.key1 + from))) % 0x10000 == 0;
    assert (-Wrap16(e.key1 + from) - (-(e.key1 + from))) % 0x10000 == 0;
    WrapSame(Wrap16(-k) + to, -Wrap16(e.key1 + from));
  }

  /** Neither the shifted key nor its negation overflows. */
  predicate Clear(e: Elem, c: int) {
    e.Fits() && -0x8000 < e.key1 + c < 0x8000
  }

  /** What undo_negate computes when nothing overflows. */
  lemma UndoParts(e: Elem, from: int, to: int, step: bool)
    requires Clear(e, to + from)
    ensures e.UndoNegate(from, to, step).key1 == -(e.key1 + (to + from))
    ensures e.UndoNegate(from, to, step).key2
         == (if e.key1 == 0 || e.key1 + (to + from) == 0 then 0
             else if (e.key1 < 0) == (e.key1 + (to + from) < 0) then e.key2 else -e.key2) + (if step then 1 else 0)
  {
    SignOfProduct(e.key1 + (to + from), e.key1);
    hide Wrap16;
  }

  /** undo_negate reverses the order of the values of one sector, exactly unless the corrected key
      is zero for two values that differ only in distance; those it makes equal. */
  lemma UndoReverses(a: Elem, b: Elem, from: int, to: int, step: bool)
    requires Clear(a, to + from) && Clear(b, to + from)
    ensures Compare(a.UndoNegate(from, to, step), b.UndoNegate(from, to, step)) == -Compare(a, b)
       <==> a.key1 != b.key1 || a.key1 == 0 || a.key1 + (to + from) != 0 || a.key2 == b.key2
    ensures a.key1 == b.key1 && a.key1 + (to + from) == 0 ==>
              Compare(a.UndoNegate(from, to, step), b.UndoNegate(from, to, step)) == 0
  {
    UndoParts(a, from, to, step);
    UndoParts(b, from, to, step);
    hide Elem.UndoNegate, Wrap16;
  }

  /** Going back and returning restores the relative key, whatever overflows on the way. */
  lemma UndoTwice(e: Elem, from: int, to: int, step: bool)
    requires e.Fits()
    ensures e.UndoNegate(from, to, step).UndoNegate(to, from, step).key1 == e.key1
  {
    UndoKey(e, from, to, step);
    UndoKey(e.UndoNegate(from, to, step), to, from, step);
    hide Wrap16, Elem.UndoNegate;
    var c := to + from;
    var p := WrapShift(e.key1 + c);
    var q := WrapShift(-Wrap16(e.key1 + c));
    var x := Wrap16(-Wrap16(e.key1 + c));
    var s := WrapShift(x + c);
    var t := WrapShift(-Wrap16(x + c));
    assert from + to == c;
  }

  /** There and back with a step each way: two more where both keys have one sign, none where the signs
      differ, and only the last step where one of them is zero. */
  lemma UndoTwiceDistance(e: Elem, from: int, to: int)
    requires Clear(e, to + from) && Clear(e.UndoNegate(from, to, true), to + from)
    ensures e.UndoNegate(from, to, true).UndoNegate(to, from, true).key2
         == if e.key1 == 0 || e.key1 + (to + from) == 0 then 1
            else if (e.key1 < 0) == (e.key1 + (to + from) < 0) then e.key2 + 2 else e.key2
  {
    UndoParts(e, from, to, true);
    UndoParts(e.UndoNegate(from, to, true), to, from, true);
    hide Elem.UndoNegate;
    assert from + to == to + from;
  }

  /** A win in some number of moves is, one move earlier, the opponent's loss in one move more, and a
      loss the opponent's win; entering a capture position adds no move. */
  lemma MateIsOneFurther(e: Elem, from: int, to: int, win: int, step: bool)
    requires Clear(e, to + from) && -win < from < win && -win < to < win
    requires e.key1 + from == win || e.key1 + from == -win
    ensures var p := e.UndoNegate(from, to, step);
            p.key1 + to == -(e.key1 + from) && p.key2 == e.key2 + if step then 1 else 0
  {
    UndoParts(e, from, to, step);
    hide Elem.UndoNegate;
  }

  lemma UndoKey(e: Elem, from: int, to: int, step: bool)
    ensures e.UndoNegate(from, to, step).key1 == Wrap16(-Wrap16(e.key1 + (to + from)))
  {
    hide Wrap16;
  }

  lemma WrapShift(x: int) returns (q: int)
    ensures Wrap16(x) == x + 0x10000 * q && -0x8000 <= Wrap16(x) < 0x8000
  {
    q := -((x + 0x8000) / 0x10000);
  }

  /** The range init_sec_vals asserts is enough: sector values between the capture value and a
      win, and absolute values between the least value and a win, never overflow. */
  lemma RangeIsClear(e: Elem, from: int, to: int, virtLoss: int, fieldBits: nat)
    requires 1 <= fieldBits <= 16 && virtLoss < 0
    requires 2 * virtLoss - 5 > 0 - Half(fieldBits)
    requires virtLoss - 1 <= from <= -virtLoss && virtLoss - 1 <= to <= -virtLoss
    requires virtLoss - 2 <= e.key1 + from <= -virtLoss
    ensures Clear(e, to + from) && Wrap16(e.key1 + from) == e.key1 + from
  {
    HalfBound(fieldBits);
  }

  /** 1 << (bits - 1). */
  function Half(bits: nat): nat
    requires bits >= 1
  {
    if bits == 1 then 1 else 2 * Half(bits - 1)
  }

  lemma {:induction false} HalfBound(bits: nat)
    requires 1 <= bits <= 16
    ensures Half(bits) <= 0x8000
  {
    HalfGrows(bits, 16);
    assert Half(16) == 0x8000;
  }

  lemma {:induction false} HalfGrows(bits: nat, top: nat)
    requires 1 <= bits <= top
    ensures Half(bits) <= Half(top)
    decreases top - bits
  {
    if bits < top {
      HalfGrows(bits + 1, top);
    }
  }

  // ---------------------------------------------------------------- the order

  /** compare is a weak order, and the operators agree with it. */
  lemma CompareIsOrder(a: Elem, b: Elem, c: Elem)
    ensures Compare(b, a) == -Compare(a, b)
    ensures Compare(a, b) <= 0 && Compare(b, c) <= 0 ==> Compare(a, c) <= 0
    ensures Compare(a, b) == 0 && Compare(b, c) < 0 ==> Compare(a, c) < 0
    ensures a.Less(b) <==> Compare(a, b) < 0
  {}

  /** Of two values of one sector the greater key is better; with one key a positive value is the
      better the sooner it comes, and a negative one the later. */
  lemma CompareMeans(a: Elem, b: Elem)
    ensures a.key1 != b.key1 ==> Compare(a, b) == Sign(a.key1 - b.key1)
    ensures a.key1 == b.key1 ==> Compare(a, b) == Sign(a.key1 * (b.key2 - a.key2))
  {
    SignOfProduct(a.key1, b.key2 - a.key2);
  }

  // ---------------------------------------------------------------- outcomes

  /** strict_cmp: -1, 0 or 1. */
  function StrictCmp(a: Database.PerfectOutcome, b: Database.PerfectOutcome): int {
    if a.Wdl() != b.Wdl() then Sign(a.Wdl() - b.Wdl())
    else match a
         case Win(steps) => Sign(b.steps - steps)
         case Loss(steps) => Sign(steps - b.steps)
         case Draw(_) => 0
  }

  function Negate(a: Database.PerfectOutcome): Database.PerfectOutcome {
    match a
    case Win(steps) => Database.Loss(steps)
    case Draw(steps) => Database.Draw(steps)
    case Loss(steps) => Database.Win(steps)
  }

  /** Negating an outcome reverses the strict order, twice is nothing, and only draws and
      identical outcomes compare equal. */
  lemma NegateReverses(a: Database.PerfectOutcome, b: Database.PerfectOutcome)
    ensures StrictCmp(Negate(a), Negate(b)) == -StrictCmp(a, b) == StrictCmp(b, a)
    ensures Negate(Negate(a)) == a
    ensures StrictCmp(a, b) == 0 <==> a == b || (a.Draw? && b.Draw?)
  {}

  lemma StrictIsOrder(a: Database.PerfectOutcome, b: Database.PerfectOutcome, c: Database.PerfectOutcome)
    requires StrictCmp(a, b) <= 0 && StrictCmp(b, c) <= 0
    ensures StrictCmp(a, c) <= 0 && (StrictCmp(a, c) == 0 ==> StrictCmp(a, b) == 0 && StrictCmp(b, c) == 0)
  {}

  /** The Rust order on the outcomes of one sector is the C++ order with all draws made equal. */
  lemma StrictIsCompare(src: Database.Source, a: Database.DatabaseEval, b: Database.DatabaseEval)
    requires src.virtLoss == -src.virtWin && src.virtWin > 0
    requires a.sectorValue == b.sectorValue && src.virtLoss < a.sectorValue < src.virtWin
    requires src.virtLoss <= a.raw.key1 + a.sectorValue <= src.virtWin
    requires src.virtLoss <= b.raw.key1 + b.sectorValue <= src.virtWin
    ensures StrictCmp(a.ToOutcome(src), b.ToOutcome(src))
         == if a.ToOutcome(src).Draw? && b.ToOutcome(src).Draw? then 0
            else Compare(Elem(a.raw.key1, a.raw.key2), Elem(b.raw.key1, b.raw.key2))
  {}
}
