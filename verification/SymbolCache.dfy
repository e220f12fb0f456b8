/** The caches over a symbol file (ups/ao_symread.c): a buffer of records, pages of strings and a hint into the
  * list of extra string offsets. Each answers as the file itself would.
  */
module SymbolCache {
  import opened Wrappers

  /** A symbol record: its type, and where its string starts. */
  datatype Sym = Sym(kind: int, offset: int)

  /** From symbol `symno` on, strings are found `offset` further. */
  datatype Extra = Extra(symno: int, offset: int)

  const SYMSIZE: nat := 12
  const S_SYMBUF_NSYMS: nat := 256
  const R_SYMBUF_NSYMS: nat := 42
  const STRPAGESIZE: nat := 256

  // ---------------------------------------------------------------- extra offsets

  ghost predicate Ordered(extras: seq<Extra>) {
    forall i, j :: 0 <= i < j < |extras| ==> extras[i].symno <= extras[j].symno
  }

  /** How many entries, from entry `from` on, a scan passes before one that starts after `symno`. */
  function Pass(extras: seq<Extra>, symno: int, from: nat): (n: nat)
    requires from <= |extras|
    ensures from + n <= |extras|
    ensures forall i :: from <= i < from + n ==> extras[i].symno <= symno
    ensures from + n < |extras| ==> extras[from + n].symno > symno
    decreases |extras| - from
  {
    if from == |extras| || extras[from].symno > symno then 0 else 1 + Pass(extras, symno, from + 1)
  }

  /** The extra offset of a symbol, by a scan from the head of the list. */
  function ExtraOffset(extras: seq<Extra>, symno: int): int {
    var n := Pass(extras, symno, 0);
    if n == 0 then 0 else extras[n - 1].offset
  }

  /** In an ordered list a scan may start at any entry that applies. */
  lemma HintAgrees(extras: seq<Extra>, symno: int, from: nat)
    requires Ordered(extras) && from < |extras| && extras[from].symno <= symno
    ensures from + Pass(extras, symno, from) == Pass(extras, symno, 0) > 0
  {
    var n, m := from + Pass(extras, symno, from), Pass(extras, symno, 0);
    assert forall i :: 0 <= i < from ==> extras[i].symno <= extras[from].symno;
  }

  /** The entry that applies is the last one that starts at or before the symbol. */
  lemma ExtraOffsetIs(extras: seq<Extra>, symno: int, i: nat)
    requires Ordered(extras) && i < |extras| && extras[i].symno <= symno
    requires i + 1 < |extras| ==> extras[i + 1].symno > symno
    ensures ExtraOffset(extras, symno) == extras[i].offset
  {
    var m := Pass(extras, symno, 0);
    assert forall j :: 0 <= j < i ==> extras[j].symno <= extras[i].symno;
  }

  /** Appending an entry changes the offset of exactly the symbols from its own on. */
  lemma {:induction false} PassAppend(extras: seq<Extra>, e: Extra, symno: int, from: nat)
    requires from <= |extras| && Ordered(extras + [e])
    ensures Pass(extras + [e], symno, from) == Pass(extras, symno, from) + if e.symno <= symno then 1 else 0
    decreases |extras| - from
  {
    var l := extras + [e];
    if from < |extras| {
      assert l[from] == extras[from] && l[|extras|] == e;
      if extras[from].symno <= symno { PassAppend(extras, e, symno, from + 1); }
    } else {
      assert l[from] == e;
      assert Pass(l, symno, from + 1) == 0;
    }
  }

  lemma ExtraAppend(extras: seq<Extra>, e: Extra, symno: int)
    requires Ordered(extras + [e])
    ensures ExtraOffset(extras + [e], symno) == if e.symno <= symno then e.offset else ExtraOffset(extras, symno)
  {
    PassAppend(extras, e, symno, 0);
    if e.symno <= symno { PassAll(extras, e, symno); }
  }

  lemma PassAll(extras: seq<Extra>, e: Extra, symno: int)
    requires Ordered(extras + [e]) && e.symno <= symno
    ensures Pass(extras, symno, 0) == |extras|
  {
    var l := extras + [e];
    assert l[|extras|] == e && forall i :: 0 <= i < |extras| ==> l[i] == extras[i];
  }

  // ---------------------------------------------------------------- what the file holds

  /** Symbol `k` is the first from `symno` on with a wanted type, or the end of the table. */
  ghost predicate First(file: seq<Sym>, wanted: int -> bool, symno: nat, k: nat) {
    && symno <= k <= |file| && (k < |file| ==> wanted(file[k].kind))
    && (forall j :: symno <= j < k ==> !wanted(file[j].kind))
  }

  /** The string of a symbol without any cache. */
  function Line(file: seq<Sym>, strings: int -> string, extras: seq<Extra>, symno: nat): string
    requires symno < |file|
  {
    strings(file[symno].offset + ExtraOffset(extras, symno))
  }

  /** A symbol before all entries has its string at its own offset, and any other at that of the last entry that starts
    * at or before it. /
    */
  lemma LineIs(file: seq<Sym>, strings: int -> string, extras: seq<Extra>, symno: nat)
    requires Ordered(extras) && symno < |file|
    ensures (forall i :: 0 <= i < |extras| ==> extras[i].symno > symno) ==>
              ExtraOffset(extras, symno) == 0 && Line(file, strings, extras, symno) == strings(file[symno].offset)
    ensures forall i :: 0 <= i < |extras| && extras[i].symno <= symno
                        && (i + 1 < |extras| ==> extras[i + 1].symno > symno) ==>
              Line(file, strings, extras, symno) == strings(file[symno].offset + extras[i].offset)
  {
    forall i | 0 <= i < |extras| && extras[i].symno <= symno && (i + 1 < |extras| ==> extras[i + 1].symno > symno)
      ensures ExtraOffset(extras, symno) == extras[i].offset
    {
      ExtraOffsetIs(extras, symno, i);
    }
  }

  // ---------------------------------------------------------------- pages of strings

  type Pages = seq<Option<seq<Option<string>>>>

  ghost predicate Paged(pages: Pages, n: nat) {
    |pages| == n / STRPAGESIZE + 1 && forall p :: 0 <= p < |pages| && pages[p].Some? ==> |pages[p].value| == STRPAGESIZE
  }

  /** The string cached for symbol `k`. */
  ghost function Kept(pages: Pages, n: nat, k: nat): Option<string>
    requires Paged(pages, n) && k < n
  {
    var page := pages[k / STRPAGESIZE];
    if page.Some? then page.value[k % STRPAGESIZE] else None
  }

  /** Every string in the cache is the one the file gives. */
  ghost predicate Current(file: seq<Sym>, strings: int -> string, extras: seq<Extra>, pages: Pages)
    requires Paged(pages, |file|)
  {
    forall k: nat :: k < |file| && Kept(pages, |file|, k).Some? ==>
      Kept(pages, |file|, k).value == Line(file, strings, extras, k)
  }

  lemma AddPage(pages: Pages, n: nat, p: nat, page: seq<Option<string>>)
    requires Paged(pages, n) && p < |pages| && pages[p].None? && |page| == STRPAGESIZE
    requires forall i :: 0 <= i < |page| ==> page[i].None?
    ensures Paged(pages[p := Some(page)], n)
    ensures forall k: nat :: k < n ==> Kept(pages[p := Some(page)], n, k) == Kept(pages, n, k)
  {
  }

  lemma KeepString(pages: Pages, n: nat, symno: nat, line: string)
    requires Paged(pages, n) && symno < n && pages[symno / STRPAGESIZE].Some?
    ensures var p := symno / STRPAGESIZE;
            var q := pages[p := Some(pages[p].value[symno % STRPAGESIZE := Some(line)])];
            && Paged(q, n) && Kept(q, n, symno) == Some(line)
            && forall k: nat :: k < n && k != symno ==> Kept(q, n, k) == Kept(pages, n, k)
  {
    var p := symno / STRPAGESIZE;
    var q := pages[p := Some(pages[p].value[symno % STRPAGESIZE := Some(line)])];
    forall k: nat | k < n && k != symno ensures Kept(q, n, k) == Kept(pages, n, k) {
      assert k / STRPAGESIZE != p || k % STRPAGESIZE != symno % STRPAGESIZE;
    }
  }

  /** An offset added for the symbols from its own on leaves the cache right exactly when it changes no string that
    * is already cached.
    */
  lemma CurrentAfterExtra(file: seq<Sym>, strings: int -> string, extras: seq<Extra>, pages: Pages, e: Extra)
    requires Paged(pages, |file|) && Current(file, strings, extras, pages) && Ordered(extras + [e])
    ensures Current(file, strings, extras + [e], pages) <==> Harmless(file, strings, pages, e)
  {
    forall k: nat | k < |file|
      ensures Line(file, strings, extras + [e], k) ==
              if e.symno <= k then strings(file[k].offset + e.offset) else Line(file, strings, extras, k)
    {
      ExtraAppend(extras, e, k);
    }
  }

  /** Every cached string from the symbol of `e` on is the one found at the new offset. */
  ghost predicate Harmless(file: seq<Sym>, strings: int -> string, pages: Pages, e: Extra)
    requires Paged(pages, |file|)
  {
    forall k: nat :: e.symno <= k < |file| && Kept(pages, |file|, k).Some? ==>
                       Kept(pages, |file|, k).value == strings(file[k].offset + e.offset)
  }

  /** A read that is taken as an error: nothing, or a part of a record. */
  predicate Failed(size: int) { size <= 0 || size % SYMSIZE != 0 }

  // ---------------------------------------------------------------- the symio

  class Symio {
    const file: seq<Sym>
    /** The string at each offset of the string table. */
    const strings: int -> string
    /** What each read of the file returns: a number of bytes, none at the end of the file, or an error. */
    const readSizes: nat -> int
    var calls: nat
    const symbuf: array<Sym>
    var symbufNsyms: nat
    var symbase: int
    var symlim: int
    /** A page of strings is made when the first of its strings is asked for. */
    var pages: Pages
    var extras: seq<Extra>
    /** The entry found last. */
    var hint: Option<nat>

    ghost predicate Buffered()
      reads this, symbuf
    {
      && symbuf.Length == S_SYMBUF_NSYMS && symbufNsyms <= S_SYMBUF_NSYMS
      && 0 <= symbase && symlim <= |file| && symlim - symbase <= S_SYMBUF_NSYMS
      && (forall i :: symbase <= i < symlim ==> symbuf[i - symbase] == file[i])
    }

    ghost predicate Hinted()
      reads this`extras, this`hint
    {
      Ordered(extras) && (hint.Some? ==> hint.value < |extras|)
    }

    ghost predicate Valid()
      reads this, symbuf
    {
      && Buffered() && symbufNsyms > 0 && Hinted()
      && Paged(pages, |file|) && Current(file, strings, extras, pages)
    }

    constructor (file: seq<Sym>, strings: int -> string, readSizes: nat -> int)
      ensures Valid() && this.file == file && this.strings == strings && this.readSizes == readSizes
      ensures extras == [] && fresh(symbuf)
    {
      this.file, this.strings, this.readSizes := file, strings, readSizes;
      this.calls := 0;
      this.symbuf := new Sym[S_SYMBUF_NSYMS](_ => Sym(0, 0));
      this.symbufNsyms, this.symbase, this.symlim := S_SYMBUF_NSYMS, |file| + 1, 0;
      this.pages := seq(|file| / STRPAGESIZE + 1, _ => None);
      this.extras, this.hint := [], None;
    }

    /** One of the reads `from` up to but not including `to` was taken as an error. */
    ghost predicate ReadFailed(from: nat, to: nat) { exists c :: from <= c < to && Failed(readSizes(c)) }

    /** `fill_symbuf`: false is one of its panics. Any number of whole records may arrive. */
    method FillSymbuf(symno: int) returns (ok: bool)
      requires Buffered() && symbufNsyms > 0
      modifies this`calls, this`symbase, this`symlim, symbuf
      ensures Buffered()
      ensures ok ==> 0 <= symno < |file| && symbase == symno < symlim
      ensures calls == if 0 <= symno < |file| then old(calls) + 1 else old(calls)
      ensures !ok ==> symbase == old(symbase) && symlim == old(symlim)
      ensures !ok && 0 <= symno < |file| ==> Failed(readSizes(old(calls)))
    {
      if symno < 0 || symno >= |file| { return false; }
      var want := symbufNsyms;
      if |file| - symno < want { want := |file| - symno; }
      var got := readSizes(calls);
      calls := calls + 1;
      if got > want * SYMSIZE { got := want * SYMSIZE; }
      if got <= 0 || got % SYMSIZE != 0 { return false; }
      var n := got / SYMSIZE;
      var i := 0;
      symbase, symlim := symno, symno;
      while i < n
        invariant 0 <= i <= n <= want && symbase == symno && symlim == symno + i && calls == old(calls) + 1
        invariant forall k :: symno <= k < symno + i ==> symbuf[k - symno] == file[k]
      {
        symbuf[i] := file[symno + i];
        i := i + 1;
        symlim := symno + i;
      }
      ok := true;
    }

    /** `getsym`: the record of the file, whatever the buffer holds. */
    method Getsym(symno: int) returns (ok: bool, nm: Sym)
      requires Buffered() && symbufNsyms > 0
      modifies this`calls, this`symbase, this`symlim, symbuf
      ensures Buffered()
      ensures ok ==> 0 <= symno < |file| && nm == file[symno]
      ensures old(symbase) <= symno < old(symlim) ==> ok && calls == old(calls)
      ensures !ok && 0 <= symno < |file| ==> Failed(readSizes(old(calls)))
    {
      ok, nm := true, Sym(0, 0);
      if symno < symbase || symno >= symlim {
        ok := FillSymbuf(symno);
        if !ok { return; }
      }
      nm := symbuf[symno - symbase];
    }

    /** `findsym`: the first wanted symbol; a start beyond the table is handed back or refused. */
    method Findsym(start: int, wanted: int -> bool) returns (ok: bool, symno: int, nm: Sym)
      requires Buffered() && symbufNsyms > 0
      modifies this`calls, this`symbase, this`symlim, this`symbufNsyms, symbuf
      ensures Buffered() && symbufNsyms > 0
      ensures ok && start < |file| ==> 0 <= start && symno >= 0 && First(file, wanted, start, symno)
      ensures ok && start >= |file| ==> symno == start
      ensures ok && symno < |file| ==> 0 <= symno && nm == file[symno]
      ensures !ok && 0 <= start < |file| ==> ReadFailed(old(calls), calls)
      ensures start >= |file| ==> (ok <==> start >= old(symbase))
    {
      ok, symno, nm := true, start, Sym(0, 0);
      if symno < symbase {
        ok := FillSymbuf(symno);
        if !ok { return; }
      }
      var at := symno - symbase;
      while symno < |file|
        invariant Buffered() && symbufNsyms > 0 && symno >= symbase && start <= symno && old(calls) <= calls
        invariant start < |file| ==> 0 <= start
        invariant symno < symlim ==> at == symno - symbase
        invariant forall j :: start <= j < symno && j < |file| ==> 0 <= j && !wanted(file[j].kind)
        invariant start < |file| ==> symno <= |file|
        invariant start >= |file| ==> symno == start
        decreases |file| - symno
      {
        if symno >= symlim {
          ok := FillSymbuf(symno);
          if !ok { return; }
          at := 0;
        }
        if wanted(symbuf[at].kind) {
          nm := symbuf[at];
          return;
        }
        at := at + 1;
        symno := symno + 1;
      }
      symbufNsyms := R_SYMBUF_NSYMS;
    }

    /** `get_extra_offset`: the hint changes where the scan starts and not what it finds. */
    method GetExtraOffset(symno: int) returns (offset: int)
      requires Hinted()
      modifies this`hint
      ensures Hinted() && offset == ExtraOffset(extras, symno)
    {
      var at := 0;
      if hint.Some? && extras[hint.value].symno <= symno {
        at := hint.value;
        HintAgrees(extras, symno, at);
      }
      var prev: Option<nat> := None;
      ghost var n := Pass(extras, symno, 0);
      while at < |extras| && extras[at].symno <= symno
        invariant at <= |extras| && at + Pass(extras, symno, at) == n
        invariant prev == None ==> (at == 0 || n > at)
        invariant prev.Some? ==> at > 0 && prev.value == at - 1
      {
        prev := Some(at);
        at := at + 1;
      }
      hint := prev;
      offset := if prev.Some? then extras[prev.value].offset else 0;
    }

    /** The part of `symstring` for a string that is not cached. */
    method ReadString(symno: nat) returns (ok: bool, line: string)
      requires Buffered() && symbufNsyms > 0 && Hinted() && symno < |file|
      modifies this`calls, this`symbase, this`symlim, this`hint, symbuf
      ensures Buffered() && Hinted() && (ok ==> line == Line(file, strings, extras, symno))
      ensures !ok ==> Failed(readSizes(old(calls)))
    {
      line := [];
      var nm;
      ok, nm := Getsym(symno);
      if !ok { return; }
      var offset := nm.offset;
      if extras != [] {
        var more := GetExtraOffset(symno);
        offset := offset + more;
      }
      line := strings(offset);
    }

    /** A page is made when it is first needed. */
    method MakePage(p: nat)
      requires Paged(pages, |file|) && Current(file, strings, extras, pages) && p < |pages|
      modifies this`pages
      ensures Paged(pages, |file|) && Current(file, strings, extras, pages) && p < |pages| && pages[p].Some?
      ensures forall k: nat :: k < |file| ==> Kept(pages, |file|, k) == Kept(old(pages), |file|, k)
    {
      if pages[p].None? {
        var page := seq(STRPAGESIZE, _ => None);
        AddPage(pages, |file|, p, page);
        pages := pages[p := Some(page)];
      }
    }

    /** `symstring`: the string an uncached lookup gives. */
    method Symstring(symno: int) returns (ok: bool, line: string)
      requires Valid()
      modifies this`calls, this`symbase, this`symlim, this`pages, this`hint, symbuf
      ensures Valid()
      ensures ok ==> 0 <= symno < |file| && line == Line(file, strings, extras, symno)
      ensures 0 <= symno < |file| && Kept(old(pages), |file|, symno).Some? ==> ok && calls == old(calls)
      ensures !ok && 0 <= symno < |file| ==> Failed(readSizes(old(calls)))
    {
      if symno < 0 || symno >= |file| { return false, []; }
      var p, slot := symno / STRPAGESIZE, symno % STRPAGESIZE;
      MakePage(p);
      if pages[p].value[slot].None? {
        ok, line := ReadString(symno);
        if !ok { return; }
        KeepString(pages, |file|, symno, line);
        pages := pages[p := Some(pages[p].value[slot := Some(line)])];
      } else {
        assert Kept(pages, |file|, symno).Some?;
        ok, line := true, pages[p].value[slot].value;
      }
    }

    /** `add_extra_string_offset`: given offsets in order of their symbols, the caches stay right exactly when the
      * offset changes no string already read; an offset of zero is not recorded.
      */
    method AddExtraStringOffset(symno: int, offset: int)
      requires Valid()
      modifies this`extras
      ensures extras == if offset == 0 then old(extras) else old(extras) + [Extra(symno, offset)]
      ensures Buffered() && Paged(pages, |file|)
      ensures offset == 0 ==> Valid()
      ensures offset != 0 ==> (Valid() <==> Ordered(extras) && Harmless(file, strings, pages, Extra(symno, offset)))
    {
      if offset != 0 {
        ghost var was := extras;
        extras := extras + [Extra(symno, offset)];
        if Ordered(extras) { CurrentAfterExtra(file, strings, was, pages, Extra(symno, offset)); }
      }
    }
  }
}
