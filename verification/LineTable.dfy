/** The line lists of functions (ups/ao_dwfsyms.c): the rows of a unit's line table, as in section 6.2 of DWARF
  * Version 4, inserted from last to first and then trimmed.
  */
module LineTable {
  import opened Wrappers

  datatype Lno = Lno(addr: int, num: int, col: int)

  /** A row of the line table, with the function its address belongs to; `ok` when all of it can be read. */
  datatype Row = Row(ok: bool, lno: Lno, func: Option<nat>)

  datatype Func = Func(addr: int, highPc: int, done: bool, lnos: seq<Lno>, maxLnum: int)

  // ---------------------------------------------------------------- stable sorting

  ghost predicate Sorted(list: seq<Lno>) {
    forall i, j :: 0 <= i < j < |list| ==> list[i].addr <= list[j].addr
  }

  /** The entries with one address, in list order. */
  function AtAddr(list: seq<Lno>, a: int): seq<Lno> {
    if list == [] then []
    else if list[0].addr == a then [list[0]] + AtAddr(list[1..], a)
    else AtAddr(list[1..], a)
  }

  /** `list` is the stable sort of `rows`: in order, with the entries of each address as they came. */
  ghost predicate StableSort(list: seq<Lno>, rows: seq<Lno>) {
    Sorted(list) && forall a :: AtAddr(list, a) == AtAddr(rows, a)
  }

  /** Where an entry goes: before the first that is not below it. */
  function Place(list: seq<Lno>, a: int): (p: nat)
    ensures p <= |list| && (forall i :: 0 <= i < p ==> list[i].addr < a) && (p < |list| ==> list[p].addr >= a)
  {
    if list == [] || list[0].addr >= a then 0 else 1 + Place(list[1..], a)
  }

  lemma PlaceIs(list: seq<Lno>, a: int, p: nat)
    requires p <= |list| && (forall i :: 0 <= i < p ==> list[i].addr < a) && (p < |list| ==> list[p].addr >= a)
    ensures Place(list, a) == p
  {
  }

  function Insert(list: seq<Lno>, l: Lno): seq<Lno> {
    var p := Place(list, l.addr);
    list[..p] + [l] + list[p..]
  }

  /** The rows put in front of a list, the last row first. */
  function Inserted(rows: seq<Lno>, list: seq<Lno>): seq<Lno> {
    if rows == [] then list else Insert(Inserted(rows[1..], list), rows[0])
  }

  lemma InsertSorted(list: seq<Lno>, l: Lno)
    requires Sorted(list)
    ensures Sorted(Insert(list, l))
  {
  }

  /** Insertion puts an entry before its equals. */
  lemma {:induction false} InsertAtAddr(list: seq<Lno>, l: Lno, a: int)
    ensures AtAddr(Insert(list, l), a) == AtAddr([l] + list, a)
  {
    var p := Place(list, l.addr);
    var r := Insert(list, l);
    if p == 0 {
      assert r == [l] + list;
    } else {
      assert list[0].addr < l.addr && r[0] == list[0];
      assert r[1..] == Insert(list[1..], l);
      InsertAtAddr(list[1..], l, a);
      assert ([l] + list)[1..] == list && ([l] + list[1..])[1..] == list[1..];
    }
  }

  /** Inserting from last to first is a stable sort. */
  lemma {:induction false} InsertedStable(rows: seq<Lno>, list: seq<Lno>, a: int)
    requires Sorted(list)
    ensures Sorted(Inserted(rows, list))
    ensures AtAddr(Inserted(rows, list), a) == AtAddr(rows, a) + AtAddr(list, a)
  {
    if rows != [] {
      InsertedStable(rows[1..], list, a);
      InsertSorted(Inserted(rows[1..], list), rows[0]);
      InsertAtAddr(Inserted(rows[1..], list), rows[0], a);
      assert ([rows[0]] + Inserted(rows[1..], list))[1..] == Inserted(rows[1..], list);
    }
  }

  lemma InsertedIsStableSort(rows: seq<Lno>)
    ensures StableSort(Inserted(rows, []), rows)
  {
    InsertedStable(rows, [], 0);
    forall a ensures AtAddr(Inserted(rows, []), a) == AtAddr(rows, a) { InsertedStable(rows, [], a); }
  }

  lemma {:induction false} AtAddrIn(list: seq<Lno>, l: Lno)
    ensures multiset(list)[l] == multiset(AtAddr(list, l.addr))[l]
  {
    if list != [] {
      AtAddrIn(list[1..], l);
      assert list == [list[0]] + list[1..];
    }
  }

  /** A stable sort loses nothing and adds nothing. */
  lemma StableSortPermutes(list: seq<Lno>, rows: seq<Lno>)
    requires StableSort(list, rows)
    ensures multiset(list) == multiset(rows)
  {
    forall l ensures multiset(list)[l] == multiset(rows)[l] {
      AtAddrIn(list, l);
      AtAddrIn(rows, l);
    }
  }

  lemma {:induction false} AtAddrHead(list: seq<Lno>, a: int)
    requires AtAddr(list, a) != []
    ensures exists i :: 0 <= i < |list| && list[i].addr == a
  {
    if list[0].addr != a {
      AtAddrHead(list[1..], a);
      var i :| 0 <= i < |list[1..]| && list[1..][i].addr == a;
      assert list[i + 1].addr == a;
    }
  }

  lemma NonEmptyAt(t: seq<Lno>)
    requires t != []
    ensures AtAddr(t, t[0].addr) != []
  {
  }

  lemma FirstIsLeast(s: seq<Lno>, t: seq<Lno>)
    requires Sorted(s) && Sorted(t) && s != [] && AtAddr(s, s[0].addr) == AtAddr(t, s[0].addr)
    ensures t != [] && t[0].addr <= s[0].addr
  {
    AtAddrHead(t, s[0].addr);
  }

  /** There is only one stable sort. */
  lemma {:induction false} StableSortUnique(s: seq<Lno>, t: seq<Lno>)
    requires Sorted(s) && Sorted(t) && forall a :: AtAddr(s, a) == AtAddr(t, a)
    ensures s == t
    decreases |s|
  {
    if s == [] {
      if t != [] { NonEmptyAt(t); }
    } else {
      var a := s[0].addr;
      assert AtAddr(s, a) == AtAddr(t, a);
      FirstIsLeast(s, t);
      assert AtAddr(s, t[0].addr) == AtAddr(t, t[0].addr);
      FirstIsLeast(t, s);
      assert s[0] == AtAddr(s, a)[0] && t[0] == AtAddr(t, a)[0];
      forall b ensures AtAddr(s[1..], b) == AtAddr(t[1..], b) {
        assert AtAddr(s, b) == AtAddr(t, b);
        SameTails(s, t, b);
      }
      StableSortUnique(s[1..], t[1..]);
    }
  }

  lemma SameTails(s: seq<Lno>, t: seq<Lno>, b: int)
    requires s != [] && t != [] && s[0] == t[0] && AtAddr(s, b) == AtAddr(t, b)
    ensures AtAddr(s[1..], b) == AtAddr(t[1..], b)
  {
    var h := if s[0].addr == b then [s[0]] else [];
    assert AtAddr(s, b)[|h|..] == AtAddr(s[1..], b) && AtAddr(t, b)[|h|..] == AtAddr(t[1..], b);
  }

  // ---------------------------------------------------------------- trimming

  /** Without the entry of the opening brace and that of the closing one. */
  function Trim(list: seq<Lno>, addr: int, highPc: int): seq<Lno> {
    var rest := if |list| >= 2 && list[0].addr <= addr then list[1..] else list;
    if |rest| >= 3 && rest[|rest| - 1].addr >= highPc then rest[..|rest| - 1] else rest
  }

  /** `now` is `list` without its first entry if and only if there are two or more and it is at or before the start of
    * the function, and without its last if and only if three or more remain and it is at or after the end.
    */
  ghost predicate Trimmed(list: seq<Lno>, now: seq<Lno>, addr: int, highPc: int) {
    exists i: nat, j: nat :: i <= j <= |list| && now == list[i..j] && Bounded(list, i, j, addr, highPc)
  }

  ghost predicate Bounded(list: seq<Lno>, i: nat, j: nat, addr: int, highPc: int) {
    && i <= 1 && (i == 1 <==> |list| >= 2 && list[0].addr <= addr)
    && |list| - 1 <= j <= |list| && (j == |list| - 1 <==> |list| - i >= 3 && list[|list| - 1].addr >= highPc)
  }

  /** Trimming takes off exactly those two entries and empties no list. After it a second entry at or before the start
    * can stand first.
    */
  lemma TrimKeeps(list: seq<Lno>, addr: int, highPc: int)
    ensures Trimmed(list, Trim(list, addr, highPc), addr, highPc)
    ensures list != [] ==> Trim(list, addr, highPc) != []
    ensures Sorted(list) ==> Sorted(Trim(list, addr, highPc))
  {
    var i := if |list| >= 2 && list[0].addr <= addr then 1 else 0;
    var rest := list[i..];
    var j := if |rest| >= 3 && rest[|rest| - 1].addr >= highPc then |list| - 1 else |list|;
    assert Trim(list, addr, highPc) == list[i..j] && Bounded(list, i, j, addr, highPc);
  }

  // ---------------------------------------------------------------- a compilation unit

  /** The usable rows of one function. */
  function RowsOf(rows: seq<Row>, f: nat): seq<Lno> {
    if rows == [] then []
    else if rows[0].ok && rows[0].func == Some(f) then [rows[0].lno] + RowsOf(rows[1..], f)
    else RowsOf(rows[1..], f)
  }

  /** These are the rows that can be read and belong to the function, in order. */
  lemma {:induction false} RowsOfAppend(rows: seq<Row>, more: seq<Row>, f: nat)
    ensures RowsOf(rows + more, f) == RowsOf(rows, f) + RowsOf(more, f)
  {
    if rows == [] {
      assert rows + more == more;
    } else {
      assert (rows + more)[1..] == rows[1..] + more;
      RowsOfAppend(rows[1..], more, f);
    }
  }

  lemma {:induction false} RowsOfIn(rows: seq<Row>, f: nat, l: Lno)
    ensures l in RowsOf(rows, f) <==> exists i :: 0 <= i < |rows| && rows[i] == Row(true, l, Some(f))
  {
    if rows != [] {
      RowsOfIn(rows[1..], f, l);
      assert forall i :: 1 <= i < |rows| ==> rows[i] == rows[1..][i - 1];
      if i :| 0 <= i < |rows[1..]| && rows[1..][i] == Row(true, l, Some(f)) {
        assert rows[i + 1] == Row(true, l, Some(f));
      }
    }
  }

  function MaxNum(rows: seq<Lno>, n: int): (m: int)
    ensures m >= n && (m == n || exists i :: 0 <= i < |rows| && rows[i].num == m)
    ensures forall i :: 0 <= i < |rows| ==> rows[i].num <= m
  {
    if rows == [] then n
    else
      var m := MaxNum(rows[1..], n);
      assert forall i :: 1 <= i < |rows| ==> rows[i] == rows[1..][i - 1];
      if rows[0].num > m then rows[0].num else m
  }

  /** A function after the rows from some point on are in. */
  function Filled(f: Func, rows: seq<Lno>): Func {
    if f.done then f else f.(lnos := Inserted(rows, f.lnos), maxLnum := MaxNum(rows, f.maxLnum))
  }

  function Finished(f: Func): Func {
    if f.done then f else f.(lnos := Trim(f.lnos, f.addr, f.highPc), done := true)
  }

  /** What becomes of function `g` with the rows `rows` of its own. */
  ghost predicate Completed(g: Func, rows: seq<Lno>, r: Func) {
    if g.done then r == g
    else
      && r.done && r.addr == g.addr && r.highPc == g.highPc
      && Trimmed(Inserted(rows, g.lnos), r.lnos, g.addr, g.highPc)
      && r.maxLnum >= g.maxLnum && (forall i :: 0 <= i < |rows| ==> rows[i].num <= r.maxLnum)
      && (r.maxLnum == g.maxLnum || exists i :: 0 <= i < |rows| && rows[i].num == r.maxLnum)
  }

  lemma FinishedIs(g: Func, rows: seq<Lno>)
    ensures Completed(g, rows, Finished(Filled(g, rows)))
  {
    TrimKeeps(Inserted(rows, g.lnos), g.addr, g.highPc);
  }

  class Unit {
    var funcs: map<nat, Func>

    constructor (funcs: map<nat, Func>)
      ensures this.funcs == funcs
    {
      this.funcs := funcs;
    }

    /** The search for the place of a new entry, and its insertion. */
    method InsertLno(list: seq<Lno>, l: Lno) returns (r: seq<Lno>)
      ensures r == Insert(list, l)
    {
      if list == [] || list[0].addr >= l.addr {
        r := [l] + list;
        PlaceIs(list, l.addr, 0);
      } else {
        var ins := 0;
        while ins + 1 < |list| && list[ins + 1].addr < l.addr
          invariant 0 <= ins < |list| && forall i :: 0 <= i <= ins ==> list[i].addr < l.addr
        {
          ins := ins + 1;
        }
        PlaceIs(list, l.addr, ins + 1);
        r := list[..ins + 1] + [l] + list[ins + 1..];
      }
    }

    /** One row goes in, if it is usable and its function is not done. */
    method TakeRow(row: Row)
      modifies this
      ensures funcs.Keys == old(funcs).Keys
      ensures forall f :: f in funcs ==>
                            funcs[f] == Filled(old(funcs)[f], if row.ok && row.func == Some(f) then [row.lno] else [])
    {
      if row.ok && row.func.Some? && row.func.value in funcs && !funcs[row.func.value].done {
        var f := row.func.value;
        var lnos := InsertLno(funcs[f].lnos, row.lno);
        var max := if funcs[f].maxLnum < row.lno.num then row.lno.num else funcs[f].maxLnum;
        FillOne(funcs[f], row.lno, []);
        assert Filled(funcs[f], [row.lno]) == funcs[f].(lnos := lnos, maxLnum := max);
        funcs := funcs[f := funcs[f].(lnos := lnos, maxLnum := max)];
      }
    }

    /** `dwf_do_cu_lines`: the line list of every function becomes the trimmed stable sort of its rows, in front
      * of what it had, and functions already done are left alone.
      */
    method DoCuLines(rows: seq<Row>)
      modifies this
      ensures funcs.Keys == old(funcs).Keys
      ensures forall f :: f in funcs ==> funcs[f] == Finished(Filled(old(funcs)[f], RowsOf(rows, f)))
      ensures forall f :: f in funcs ==> Completed(old(funcs)[f], RowsOf(rows, f), funcs[f])
    {
      ghost var start := funcs;
      var i := |rows|;
      while i > 0
        invariant 0 <= i <= |rows| && funcs.Keys == start.Keys
        invariant forall f :: f in funcs ==> funcs[f] == Filled(start[f], RowsOf(rows[i..], f))
      {
        i := i - 1;
        ghost var before := funcs;
        TakeRow(rows[i]);
        forall f | f in funcs ensures funcs[f] == Filled(start[f], RowsOf(rows[i..], f)) {
          assert before[f] == Filled(start[f], RowsOf(rows[i + 1..], f));
          FilledMore(start[f], rows, i, f);
        }
      }
      assert rows[0..] == rows;
      funcs := map f | f in funcs :: Finished(funcs[f]);
      forall f | f in funcs ensures Completed(start[f], RowsOf(rows, f), funcs[f]) {
        FinishedIs(start[f], RowsOf(rows, f));
      }
    }
  }

  lemma FilledMore(g: Func, rows: seq<Row>, i: nat, f: nat)
    requires i < |rows|
    ensures Filled(g, RowsOf(rows[i..], f)) ==
            Filled(Filled(g, RowsOf(rows[i + 1..], f)),
                   if rows[i].ok && rows[i].func == Some(f) then [rows[i].lno] else [])
  {
    var rest := RowsOf(rows[i + 1..], f);
    assert rows[i..][1..] == rows[i + 1..];
    if rows[i].ok && rows[i].func == Some(f) {
      FillOne(g, rows[i].lno, rest);
      FillOne(Filled(g, rest), rows[i].lno, []);
    }
  }

  lemma FillOne(g: Func, l: Lno, rest: seq<Lno>)
    ensures Inserted([l] + rest, g.lnos) == Insert(Inserted(rest, g.lnos), l)
    ensures MaxNum([l] + rest, g.maxLnum) == var m := MaxNum(rest, g.maxLnum); if l.num > m then l.num else m
    ensures rest == [] ==> [l] + rest == [l] && Inserted(rest, g.lnos) == g.lnos && MaxNum(rest, g.maxLnum) == g.maxLnum
  {
    assert ([l] + rest)[1..] == rest;
  }
}
