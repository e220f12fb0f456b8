/** The table of return values (med3/rvals.c): for each of 256 cells, four layers of 64
  * characters, how many buttons of the menu and how many cut buttons use it.
  */
module ReturnValues {
  import opened MenuTree
  import opened Labels

  const LAYERS := 4
  const CELLS := 64
  const ALL := LAYERS * CELLS

  /** The character code of cell `i` of a layer. */
  function Chr(i: nat): (c: nat)
    requires i < CELLS
    ensures c < 128
  {
    if i < 26 then 97 + i else if i < 52 then 65 + i - 26 else if i < 62 then 48 + i - 52 else if i == 62 then 63
      else 33
  }

  /** The index table `rvcell`: zero for a character that is in no cell. */
  function CellIndex(c: nat): (i: nat)
    ensures i < CELLS
  {
    if 97 <= c <= 122 then c - 97
    else if 65 <= c <= 90 then c - 65 + 26
    else if 48 <= c <= 57 then c - 48 + 52
    else if c == 63 then 62
    else if c == 33 then 63
    else 0
  }

  /** Layer and cell of a return value (RV_LAYER and RV_CHR). */
  function CellOf(rv: nat): (c: nat)
    ensures c < ALL
  {
    rv / 256 % 4 * CELLS + CellIndex(rv % 128)
  }

  function RvFull(cell: nat): nat
    requires cell < ALL
  {
    cell / CELLS * 256 + Chr(cell % CELLS)
  }

  lemma CellOfRvFull(cell: nat)
    requires cell < ALL
    ensures CellOf(RvFull(cell)) == cell
  {
    var q, c := cell / CELLS, Chr(cell % CELLS);
    assert RvFull(cell) / 256 == q && RvFull(cell) % 128 == c;
  }

  /** The characters of a layer, in rows of eight. */
  const ROWS := [
    "abcdefgh", "ijklmnop", "qrstuvwx", "yzABCDEF", "GHIJKLMN", "OPQRSTUV", "WXYZ0123", "456789?!"]

  function Letter(i: nat): nat
    requires i < CELLS
  {
    RowsAreEight(i / 8);
    ROWS[i / 8][i % 8] as int
  }

  lemma RowsAreEight(r: nat)
    requires r < 8
    ensures |ROWS[r]| == 8
  {
  }

  /** These are the characters of the cells, and a character that is none of them is counted in the first cell. */
  lemma ChrIs(c: nat)
    ensures forall i :: 0 <= i < CELLS ==> Chr(i) == Letter(i) && CellIndex(Letter(i)) == i
    ensures (forall i :: 0 <= i < CELLS ==> Letter(i) != c) ==> CellIndex(c) == 0
  {
    forall i | 0 <= i < CELLS ensures Chr(i) == Letter(i) && CellIndex(Letter(i)) == i { LetterIs(i); }
    if CellIndex(c) != 0 { assert Letter(CellIndex(c)) == c; }
  }

  lemma LetterIs(i: nat)
    requires i < CELLS
    ensures Chr(i) == Letter(i)
  {
    var r, k := i / 8, i % 8;
    RowsAreEight(r);
    RowIs(r, k);
    assert i == 8 * r + k;
  }

  lemma RowIs(r: nat, k: nat)
    requires r < 8 && k < 8 && |ROWS[r]| == 8
    ensures Chr(8 * r + k) == ROWS[r][k] as int
  {
    if r == 0 { Row0(k); } else if r == 1 { Row1(k); } else if r == 2 { Row2(k); } else if r == 3 { Row3(k); }
    else if r == 4 { Row4(k); } else if r == 5 { Row5(k); } else if r == 6 { Row6(k); } else { Row7(k); }
  }

  lemma Row0(k: nat)
    requires k < 8
    ensures Chr(0 + k) == "abcdefgh"[k] as int
  {
  }

  lemma Row1(k: nat)
    requires k < 8
    ensures Chr(8 + k) == "ijklmnop"[k] as int
  {
  }

  lemma Row2(k: nat)
    requires k < 8
    ensures Chr(16 + k) == "qrstuvwx"[k] as int
  {
  }

  lemma Row3(k: nat)
    requires k < 8
    ensures Chr(24 + k) == "yzABCDEF"[k] as int
  {
  }

  lemma Row4(k: nat)
    requires k < 8
    ensures Chr(32 + k) == "GHIJKLMN"[k] as int
  {
  }

  lemma Row5(k: nat)
    requires k < 8
    ensures Chr(40 + k) == "OPQRSTUV"[k] as int
  {
  }

  lemma Row6(k: nat)
    requires k < 8
    ensures Chr(48 + k) == "WXYZ0123"[k] as int
  {
  }

  lemma Row7(k: nat)
    requires k < 8
    ensures Chr(56 + k) == "456789?!"[k] as int
  {
  }

  /** A value of a given layer and character. */
  lemma RvFullIs(layer: nat, i: nat)
    requires layer < LAYERS && i < CELLS
    ensures RvFull(layer * CELLS + i) == layer * 256 + Letter(i)
  {
    LetterIs(i);
    assert (layer * CELLS + i) / CELLS == layer && (layer * CELLS + i) % CELLS == i;
  }

  /** Counters are unsigned characters and wrap around. */
  predicate IsTable(t: seq<nat>) { |t| == ALL && forall c | 0 <= c < ALL :: t[c] < 256 }

  function Inc(t: seq<nat>, c: nat): (r: seq<nat>)
    requires IsTable(t) && c < ALL
    ensures IsTable(r)
  {
    t[c := if t[c] == 255 then 0 else t[c] + 1]
  }

  function Dec(t: seq<nat>, c: nat): (r: seq<nat>)
    requires IsTable(t) && c < ALL
    ensures IsTable(r)
  {
    t[c := if t[c] == 0 then 255 else t[c] - 1]
  }

  datatype Tables = Tables(main: seq<nat>, cut: seq<nat>) {
    predicate Ok() { IsTable(main) && IsTable(cut) }

    predicate Unused(c: nat)
      requires Ok() && c < ALL
    {
      main[c] == 0 && cut[c] == 0
    }
  }

  function Zeros(): (t: seq<nat>)
    ensures IsTable(t) && forall c | 0 <= c < ALL :: t[c] == 0
  {
    seq(ALL, i => 0)
  }

  // ---------------------------------------------------------------- handing out a value

  /** The first unused cell at or after `i`, or ALL. */
  function FirstUnused(t: Tables, i: nat): (c: nat)
    requires t.Ok() && i <= ALL
    ensures i <= c <= ALL
    ensures c < ALL ==> t.Unused(c)
    ensures forall k | i <= k < c :: !t.Unused(k)
    decreases ALL - i
  {
    if i == ALL || t.Unused(i) then i else FirstUnused(t, i + 1)
  }

  predicate HasUnused(t: Tables)
    requires t.Ok()
  {
    exists c :: 0 <= c < ALL && t.Unused(c)
  }

  function NextValue(t: Tables): nat
    requires t.Ok()
  {
    var c := FirstUnused(t, 0);
    if c < ALL then RvFull(c) else Chr(0)
  }

  function AfterNext(t: Tables): (r: Tables)
    requires t.Ok()
    ensures r.Ok()
  {
    var c := FirstUnused(t, 0);
    if c < ALL then t.(main := Inc(t.main, c)) else t
  }

  /** `rvnext`: layer by layer, the first cell that no counter marks as used.  When all
    * cells are used it returns the first character and counts nothing.
    */
  method RvNext(t: Tables) returns (rv: nat, r: Tables)
    requires t.Ok()
    ensures rv == NextValue(t) && r == AfterNext(t)
  {
    var j := 0;
    while j < LAYERS
      invariant 0 <= j <= LAYERS
      invariant forall k | 0 <= k < j * CELLS :: !t.Unused(k)
    {
      var i := 0;
      while i < CELLS
        invariant 0 <= i <= CELLS
        invariant forall k | 0 <= k < j * CELLS + i :: !t.Unused(k)
      {
        var c := j * CELLS + i;
        if t.main[c] == 0 && t.cut[c] == 0 {
          assert t.Unused(c);
          assert FirstUnused(t, 0) == c && c / CELLS == j && c % CELLS == i;
          return j * 256 + Chr(i), t.(main := Inc(t.main, c));
        }
        i := i + 1;
      }
      j := j + 1;
    }
    return Chr(0), t;
  }

  /** A value that is handed out and freed again leaves the table as it was, provided a
    * cell was free.
    */
  lemma NextThenFree(t: Tables)
    requires t.Ok() && HasUnused(t)
    ensures FreeValue(AfterNext(t), NextValue(t)) == t
  {
    CellOfRvFull(FirstUnused(t, 0));
    assert FreeValue(AfterNext(t), NextValue(t)).main == t.main;
  }

  /** When every cell is used the first character of the first layer is handed out again, and nothing is counted. */
  lemma NextWhenFull(t: Tables)
    requires t.Ok()
    ensures HasUnused(t) ==>
              exists c :: 0 <= c < ALL && t.Unused(c) && (forall k | 0 <= k < c :: !t.Unused(k))
                && CellOf(NextValue(t)) == c
    ensures !HasUnused(t) ==> NextValue(t) == 'a' as int && AfterNext(t) == t
  {
    var c := FirstUnused(t, 0);
    if c < ALL { CellOfRvFull(c); }
  }

  // ---------------------------------------------------------------- moving and freeing

  function MoveValue(t: Tables, rv: nat, toMain: bool): (r: Tables)
    requires t.Ok()
    ensures r.Ok()
  {
    var c := CellOf(rv);
    if toMain then Tables(Inc(t.main, c), Dec(t.cut, c)) else Tables(Dec(t.main, c), Inc(t.cut, c))
  }

  function FreeValue(t: Tables, rv: nat): (r: Tables)
    requires t.Ok()
    ensures r.Ok()
  {
    t.(main := Dec(t.main, CellOf(rv)))
  }

  function TakeValue(t: Tables, rv: nat): (r: Tables)
    requires t.Ok()
    ensures r.Ok()
  {
    t.(main := Inc(t.main, CellOf(rv)))
  }

  function MoveOwn(t: Tables, b: Button, toMain: bool): (r: Tables)
    requires t.Ok()
    ensures r.Ok()
  {
    if b.clear then t else MoveValue(t, b.rv, toMain)
  }

  /** `movervs`: all opaque buttons of a menu, at every level. */
  function MoveValues(t: Tables, m: Menu, toMain: bool): (r: Tables)
    requires t.Ok()
    ensures r.Ok()
    decreases m
  {
    if m.Nil? then t
    else
      MoveValues(MoveValues(MoveOwn(t, m.b, toMain), m.u, toMain), m.next, toMain)
  }

  /** `freervs`. */
  function FreeValues(t: Tables, m: Menu): (r: Tables)
    requires t.Ok()
    ensures r.Ok()
    decreases m
  {
    if m.Nil? then t
    else
      FreeValues(FreeValues(FreeOwn(t, m.b), m.u), m.next)
  }

  lemma WrapTwice(a: int, b: int)
    ensures (a % 256 + b) % 256 == (a + b) % 256
  {
  }

  /** `n` uses of cell `c` have gone from one counter to the other. The counters are bytes, so they wrap. */
  predicate Shifted(t: Tables, r: Tables, c: nat, n: nat, toMain: bool)
    requires t.Ok() && r.Ok() && c < ALL
  {
    && r.main[c] == (if toMain then t.main[c] + n else t.main[c] - n) % 256
    && r.cut[c] == (if !toMain then t.cut[c] + n else t.cut[c] - n) % 256
  }

  /** In general the counts move modulo 256. */
  lemma {:induction false} MoveValuesWrap(t: Tables, m: Menu, toMain: bool, c: nat)
    requires t.Ok() && c < ALL
    ensures Shifted(t, MoveValues(t, m, toMain), c, Held(m, c), toMain)
    decreases m
  {
    if m.Node? {
      var t1 := MoveOwn(t, m.b, toMain);
      var t2 := MoveValues(t1, m.u, toMain);
      MoveValuesWrap(t1, m.u, toMain, c);
      MoveValuesWrap(t2, m.next, toMain, c);
      OwnShifted(t, m.b, toMain, c);
      ShiftedThrice(t, t1, t2, MoveValues(t2, m.next, toMain), c, Uses(m.b, c), Held(m.u, c), Held(m.next, c), toMain);
    }
  }

  lemma OwnShifted(t: Tables, b: Button, toMain: bool, c: nat)
    requires t.Ok() && c < ALL
    ensures Shifted(t, MoveOwn(t, b, toMain), c, Uses(b, c), toMain)
  {
  }

  lemma ShiftedThrice(t: Tables, t1: Tables, t2: Tables, r: Tables, c: nat, x: nat, y: nat, z: nat, toMain: bool)
    requires t.Ok() && t1.Ok() && t2.Ok() && r.Ok() && c < ALL
    requires Shifted(t, t1, c, x, toMain) && Shifted(t1, t2, c, y, toMain) && Shifted(t2, r, c, z, toMain)
    ensures Shifted(t, r, c, x + y + z, toMain)
  {
    WrapSum(t.main[c], t1.main[c], t2.main[c], x, y, z, toMain);
    WrapSum(t.cut[c], t1.cut[c], t2.cut[c], x, y, z, !toMain);
  }

  lemma WrapSum(a: int, a1: int, a2: int, x: int, y: int, z: int, up: bool)
    requires a1 == (if up then a + x else a - x) % 256 && a2 == (if up then a1 + y else a1 - y) % 256
    ensures (if up then a2 + z else a2 - z) % 256 == (if up then a + (x + y + z) else a - (x + y + z)) % 256
  {
    WrapTwice(if up then a1 + y else a1 - y, if up then z else -z);
    WrapTwice(if up then a + x else a - x, if up then y + z else -y - z);
  }

  lemma {:induction false} FreeValuesWrap(t: Tables, m: Menu, c: nat)
    requires t.Ok() && c < ALL
    ensures FreeValues(t, m).cut == t.cut && FreeValues(t, m).main[c] == (t.main[c] - Held(m, c)) % 256
    decreases m
  {
    if m.Node? {
      var t1 := FreeOwn(t, m.b);
      var t2 := FreeValues(t1, m.u);
      FreeOwnWrap(t, m.b, c);
      FreeValuesWrap(t1, m.u, c);
      FreeValuesWrap(t2, m.next, c);
      WrapSum(t.main[c], t1.main[c], t2.main[c], Uses(m.b, c), Held(m.u, c), Held(m.next, c), false);
    }
  }

  lemma FreeOwnWrap(t: Tables, b: Button, c: nat)
    requires t.Ok() && c < ALL
    ensures FreeOwn(t, b).main[c] == (t.main[c] - Uses(b, c)) % 256
  {
  }

  predicate UsesCell(b: Button, c: nat) { !b.clear && CellOf(b.rv) == c }

  function Uses(b: Button, c: nat): nat { if UsesCell(b, c) then 1 else 0 }

  /** How many opaque buttons of `m` use cell `c`. */
  function Held(m: Menu, c: nat): nat {
    if m.Nil? then 0 else Uses(m.b, c) + Held(m.u, c) + Held(m.next, c)
  }

  function InCell(c: nat): Label -> bool { (l: Label) => CellOf(l.rv) == c }

  lemma {:induction false} HeldIsCount(m: Menu, c: nat, f: Label -> bool)
    requires forall l: Label :: f(l) <==> CellOf(l.rv) == c
    ensures Held(m, c) == Count(m, f)
  {
    if m.Node? {
      HeldIsCount(m.u, c, f);
      HeldIsCount(m.next, c, f);
    }
  }

  function HeldCuts(cuts: seq<Menu>, c: nat): nat {
    if cuts == [] then 0 else HeldCuts(cuts[..|cuts| - 1], c) + Held(cuts[|cuts| - 1], c)
  }

  /** Without wrap-around, moving a menu's values moves exactly the counts it holds. */
  lemma {:induction false} MoveValuesEffect(t: Tables, m: Menu, toMain: bool, c: nat)
    requires t.Ok() && c < ALL
    requires Held(m, c) <= (if toMain then t.cut[c] else t.main[c])
    requires (if toMain then t.main[c] else t.cut[c]) + Held(m, c) <= 255
    ensures var r := MoveValues(t, m, toMain);
            if toMain then r.main[c] == t.main[c] + Held(m, c) && r.cut[c] == t.cut[c] - Held(m, c)
            else r.main[c] == t.main[c] - Held(m, c) && r.cut[c] == t.cut[c] + Held(m, c)
    decreases m
  {
    if m.Node? {
      var t1 := MoveOwn(t, m.b, toMain);
      MoveValuesEffect(t1, m.u, toMain, c);
      var t2 := MoveValues(t1, m.u, toMain);
      MoveValuesEffect(t2, m.next, toMain, c);
      assert MoveValues(t, m, toMain) == MoveValues(t2, m.next, toMain);
    }
  }

  function FreeOwn(t: Tables, b: Button): (r: Tables)
    requires t.Ok()
    ensures r.Ok() && r.cut == t.cut
    ensures forall c | 0 <= c < ALL && Uses(b, c) <= t.main[c] :: r.main[c] == t.main[c] - Uses(b, c)
  {
    if b.clear then t else FreeValue(t, b.rv)
  }

  lemma {:induction false} FreeValuesEffect(t: Tables, m: Menu, c: nat)
    requires t.Ok() && c < ALL && Held(m, c) <= t.main[c]
    ensures FreeValues(t, m).cut == t.cut && FreeValues(t, m).main[c] == t.main[c] - Held(m, c)
    decreases m
  {
    if m.Node? {
      var t1 := FreeOwn(t, m.b);
      FreeValuesEffect(t1, m.u, c);
      var t2 := FreeValues(t1, m.u);
      FreeValuesEffect(t2, m.next, c);
      assert FreeValues(t, m) == FreeValues(t2, m.next);
    }
  }
}
