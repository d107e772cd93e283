/** Choosing the best moves: by the letter of the value's name, or by its full order. */
module Choices {
  import opened Values

  /** The first character of a value's name: W, L, or that of a draw's sector. */
  datatype Letter = Winning | Losing | Drawing

  /** sec_val_to_sec_name, first character. */
  function LetterOf(akey1: int, virtLoss: int, virtWin: int): Letter {
    if akey1 == 0 then Drawing
    else if akey1 == virtLoss then Losing
    else if akey1 == virtWin then Winning
    else Drawing
  }

  datatype Verdict = MateLost | MateWon | DrawnGame

  /** The elements that satisfy p, in order. */
  function Kept<T>(l: seq<T>, p: T -> bool): seq<T> {
    if l == [] then []
    else if p(l[|l| - 1]) then Kept(l[..|l| - 1], p) + [l[|l| - 1]] else Kept(l[..|l| - 1], p)
  }

  lemma {:induction false} KeptMembers<T>(l: seq<T>, p: T -> bool, x: T)
    ensures x in Kept(l, p) <==> x in l && p(x)
  {
    if l != [] {
      KeptMembers(l[..|l| - 1], p, x);
      assert l == l[..|l| - 1] + [l[|l| - 1]];
    }
  }

  lemma {:induction false} KeptNothing<T>(l: seq<T>, p: T -> bool)
    requires forall i :: 0 <= i < |l| ==> !p(l[i])
    ensures Kept(l, p) == []
  {
    if l != [] {
      KeptNothing(l[..|l| - 1], p);
    }
  }

  lemma KeptNext<T>(l: seq<T>, i: nat, p: T -> bool)
    requires i < |l|
    ensures Kept(l[..i + 1], p) == Kept(l[..i], p) + if p(l[i]) then [l[i]] else []
  {
    assert l[..i + 1][..i] == l[..i];
  }

  /** The greatest value of l, or the least value if nothing is above that. */
  function Best<T>(value: T -> Elem, l: seq<T>, minValue: Elem): Elem {
    if l == [] then minValue
    else
      var b := Best(value, l[..|l| - 1], minValue);
      var e := value(l[|l| - 1]);
      if Compare(e, b) > 0 then e else b
  }

  lemma {:induction false} BestIsGreatest<T>(value: T -> Elem, l: seq<T>, minValue: Elem)
    ensures Compare(minValue, Best(value, l, minValue)) <= 0
    ensures forall i :: 0 <= i < |l| ==> Compare(value(l[i]), Best(value, l, minValue)) <= 0
    ensures Best(value, l, minValue) == minValue || exists i :: 0 <= i < |l| && value(l[i]) == Best(value, l, minValue)
  {
    if l != [] {
      var m := l[..|l| - 1];
      BestIsGreatest(value, m, minValue);
      var b := Best(value, m, minValue);
      var e := value(l[|l| - 1]);
      forall i | 0 <= i < |m| ensures Compare(value(l[i]), Best(value, l, minValue)) <= 0 {
        assert m[i] == l[i];
        CompareIsOrder(value(l[i]), b, e);
      }
      CompareIsOrder(minValue, b, e);
      CompareIsOrder(e, b, b);
      CompareIsOrder(b, e, e);
      hide Compare;
      if i :| 0 <= i < |m| && value(m[i]) == b {
        assert value(l[i]) == b;
      }
    }
  }

  /** The letter the first mode settles on: a win if there is one, else a draw, else a loss. */
  ghost predicate Some<T>(letter: T -> Letter, l: seq<T>, v: Letter) {
    exists i :: 0 <= i < |l| && letter(l[i]) == v
  }

  ghost function TopLetter<T>(letter: T -> Letter, l: seq<T>): Letter {
    if Some(letter, l, Winning) then Winning else if Some(letter, l, Drawing) then Drawing else Losing
  }

  function VerdictOf(v: Letter): Verdict {
    match v
    case Winning => MateWon
    case Drawing => DrawnGame
    case Losing => MateLost
  }

  /** get_all_max_by; byLetter is the mode of every algorithm but a non-lazy MCTS. */
  method GetAllMaxBy<T>(value: T -> Elem, letter: T -> Letter, l: seq<T>, minValue: Elem, byLetter: bool)
    returns (r: seq<T>, v: Verdict)
    ensures byLetter ==> r == Kept(l, m => letter(m) == TopLetter(letter, l)) && v == VerdictOf(TopLetter(letter, l))
    ensures !byLetter ==> r == Kept(l, m => Compare(value(m), Best(value, l, minValue)) == 0)
                          && v == if r == [] then MateLost else VerdictOf(letter(r[0]))
    ensures v == MateWon <==> r != [] && letter(r[0]) == Winning
    ensures v == DrawnGame <==> r != [] && letter(r[0]) == Drawing
    ensures byLetter ==> (v == MateWon <==> exists m :: m in l && letter(m) == Winning)
    ensures byLetter ==> (v == MateLost <==> forall m :: m in l ==> letter(m) == Losing)
    ensures byLetter ==> forall m :: m in r <==> m in l && VerdictOf(letter(m)) == v
  {
    if byLetter {
      r := ByLetter(letter, l);
    } else {
      r := ByValue(value, l, minValue);
    }
    var e := if r == [] then Losing else letter(r[0]);
    v := VerdictOf(e);
    if byLetter {
      TopIsFirst(letter, l, r);
      TopMeans(letter, l);
      forall m ensures m in r <==> m in l && letter(m) == TopLetter(letter, l) {
        KeptMembers(l, m => letter(m) == TopLetter(letter, l), m);
      }
    }
  }

  lemma TopIsFirst<T>(letter: T -> Letter, l: seq<T>, r: seq<T>)
    requires r == Kept(l, m => letter(m) == TopLetter(letter, l))
    ensures TopLetter(letter, l) == if r == [] then Losing else letter(r[0])
  {
    var p := m => letter(m) == TopLetter(letter, l);
    if r != [] {
      KeptMembers(l, p, r[0]);
    } else {
      forall i | 0 <= i < |l| ensures letter(l[i]) != TopLetter(letter, l) { KeptMembers(l, p, l[i]); }
    }
  }

  /** The best letter is that of some move that wins, else of some that draws. */
  lemma TopMeans<T>(letter: T -> Letter, l: seq<T>)
    ensures TopLetter(letter, l) == Winning <==> exists m :: m in l && letter(m) == Winning
    ensures TopLetter(letter, l) == Losing <==> forall m :: m in l ==> letter(m) == Losing
  {
    forall v ensures Some(letter, l, v) <==> exists m :: m in l && letter(m) == v {
      if i :| 0 <= i < |l| && letter(l[i]) == v { assert l[i] in l; }
    }
    if !Some(letter, l, Winning) && !Some(letter, l, Drawing) {
      forall m | m in l ensures letter(m) == Losing {
        assert letter(m) == Winning || letter(m) == Drawing || letter(m) == Losing;
      }
    }
  }

  method ByLetter<T>(letter: T -> Letter, l: seq<T>) returns (r: seq<T>)
    ensures r == Kept(l, m => letter(m) == TopLetter(letter, l))
  {
    hide Kept;
    r := [];
    var foundW, foundD := false, false;
    NoneKept(letter);
    for i := 0 to |l|
      invariant foundW == Some(letter, l[..i], Winning)
      invariant !foundW ==> foundD == Some(letter, l[..i], Drawing)
      invariant r == WithLetter(letter, l[..i], TopLetter(letter, l[..i]))
    {
      var m := l[i];
      var e := letter(m);
      LetterNext(letter, l, i);
      if e == Winning {
        if !foundW {
          r := [];
          foundW := true;
        }
        r := r + [m];
      } else if !foundW && e != Losing {
        if !foundD {
          r := [];
          foundD := true;
        }
        r := r + [m];
      } else if !foundW && !foundD && e == Losing {
        r := r + [m];
      }
    }
    assert l[..|l|] == l;
    WithLetterIs(letter, l, TopLetter(letter, l));
  }

  ghost function WithLetter<T>(letter: T -> Letter, l: seq<T>, v: Letter): seq<T> {
    Kept(l, m => letter(m) == v)
  }

  lemma WithLetterIs<T>(letter: T -> Letter, l: seq<T>, v: Letter)
    requires v == TopLetter(letter, l)
    ensures WithLetter(letter, l, v) == Kept(l, m => letter(m) == TopLetter(letter, l))
  {
    SameKept(l, m => letter(m) == v, m => letter(m) == TopLetter(letter, l));
  }

  lemma {:induction false} SameKept<T>(l: seq<T>, p: T -> bool, q: T -> bool)
    requires forall i :: 0 <= i < |l| ==> p(l[i]) == q(l[i])
    ensures Kept(l, p) == Kept(l, q)
  {
    if l != [] {
      SameKept(l[..|l| - 1], p, q);
    }
  }

  lemma NoneKept<T>(letter: T -> Letter)
    ensures forall v :: WithLetter(letter, [], v) == []
  {}

  lemma LetterNext<T>(letter: T -> Letter, l: seq<T>, i: nat)
    requires i < |l|
    ensures forall v :: Some(letter, l[..i + 1], v) <==> Some(letter, l[..i], v) || letter(l[i]) == v
    ensures forall v :: WithLetter(letter, l[..i + 1], v)
                        == WithLetter(letter, l[..i], v) + if letter(l[i]) == v then [l[i]] else []
    ensures forall v :: !Some(letter, l[..i], v) ==> WithLetter(letter, l[..i], v) == []
  {
    forall v
      ensures Some(letter, l[..i + 1], v) <==> Some(letter, l[..i], v) || letter(l[i]) == v
      ensures WithLetter(letter, l[..i + 1], v)
              == WithLetter(letter, l[..i], v) + if letter(l[i]) == v then [l[i]] else []
      ensures !Some(letter, l[..i], v) ==> WithLetter(letter, l[..i], v) == []
    {
      KeptNext(l, i, m => letter(m) == v);
      if !Some(letter, l[..i], v) { KeptNothing(l[..i], m => letter(m) == v); }
      var a, b := l[..i], l[..i + 1];
      if k :| 0 <= k < |a| && letter(a[k]) == v { assert b[k] == a[k]; }
      if letter(l[i]) == v { assert b[i] == l[i]; }
      if k :| 0 <= k < |b| && letter(b[k]) == v { assert k < i ==> a[k] == b[k]; }
    }
  }

  method ByValue<T>(value: T -> Elem, l: seq<T>, minValue: Elem) returns (r: seq<T>)
    ensures r == Kept(l, m => Compare(value(m), Best(value, l, minValue)) == 0)
  {
    hide Kept, Compare, Best;
    r := [];
    var ma := minValue;
    NoneBest(value, minValue);
    for i := 0 to |l|
      invariant ma == Best(value, l[..i], minValue) && r == WithValue(value, l[..i], ma)
    {
      var m := l[i];
      var e := value(m);
      ValueNext(value, l, i, minValue);
      if Compare(e, ma) > 0 {
        ma := e;
        r := [];
        r := r + [m];
      } else if Compare(e, ma) == 0 {
        r := r + [m];
      }
    }
    assert l[..|l|] == l;
  }

  ghost function WithValue<T>(value: T -> Elem, l: seq<T>, best: Elem): seq<T> {
    Kept(l, m => Compare(value(m), best) == 0)
  }

  lemma NoneBest<T>(value: T -> Elem, minValue: Elem)
    ensures Best(value, [], minValue) == minValue && WithValue(value, [], minValue) == []
  {}

  lemma ValueNext<T>(value: T -> Elem, l: seq<T>, i: nat, minValue: Elem)
    requires i < |l|
    ensures var b, e := Best(value, l[..i], minValue), value(l[i]);
            && Best(value, l[..i + 1], minValue) == (if Compare(e, b) > 0 then e else b)
            && WithValue(value, l[..i + 1], b)
               == WithValue(value, l[..i], b) + (if Compare(e, b) == 0 then [l[i]] else [])
            && (Compare(e, b) > 0 ==> WithValue(value, l[..i + 1], e) == [l[i]])
  {
    var b, e := Best(value, l[..i], minValue), value(l[i]);
    assert l[..i + 1][..i] == l[..i];
    KeptNext(l, i, m => Compare(value(m), b) == 0);
    if Compare(e, b) > 0 {
      KeptNext(l, i, m => Compare(value(m), e) == 0);
      BestIsGreatest(value, l[..i], minValue);
      forall k | 0 <= k < i ensures Compare(value(l[..i][k]), e) != 0 {
        CompareIsOrder(value(l[k]), b, e);
      }
      KeptNothing(l[..i], m => Compare(value(m), e) == 0);
      CompareIsOrder(e, e, e);
    }
  }

  /** The full order picks among the moves with the best letter: for values of one sector between a
      loss and a win, every move it chooses is one the letter mode chooses. */
  lemma ValueRefinesLetter<T>(value: T -> Elem, letter: T -> Letter, l: seq<T>, minValue: Elem,
                              sector: int, virtLoss: int, virtWin: int, x: T)
    requires virtLoss == -virtWin && virtWin > 0
    requires forall m :: m in l ==> virtLoss <= value(m).key1 + sector <= virtWin
    requires forall m :: m in l ==> letter(m) == LetterOf(value(m).key1 + sector, virtLoss, virtWin)
    requires x in Kept(l, m => Compare(value(m), Best(value, l, minValue)) == 0)
    ensures x in Kept(l, m => letter(m) == TopLetter(letter, l))
  {
    hide Compare, Best, Kept;
    var b := Best(value, l, minValue);
    KeptMembers(l, m => Compare(value(m), b) == 0, x);
    KeptMembers(l, m => letter(m) == TopLetter(letter, l), x);
    BestIsGreatest(value, l, minValue);
    forall i | 0 <= i < |l| ensures value(l[i]).key1 <= value(x).key1 {
      CompareIsOrder(value(l[i]), b, value(x));
      CompareIsOrder(value(x), b, b);
      KeyFirst(value(l[i]), value(x));
    }
    var k :| 0 <= k < |l| && l[k] == x;
    forall i | 0 <= i < |l| ensures l[i] in l {}
  }

  lemma KeyFirst(a: Elem, b: Elem)
    requires Compare(a, b) <= 0
    ensures a.key1 <= b.key1
  {}
}
