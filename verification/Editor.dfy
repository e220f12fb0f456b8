/** The menu editor as an object: its state changes with every command, and every command
  * keeps the menu tiled and the return value table high enough.
  */
module Editor {
  import opened MenuTree
  import opened Paths
  import opened ReturnValues
  import opened Session
  import opened ValueSafety
  import opened MenuLoops
  import RoundTrip
  import Reading

  /** What one command keeps. */
  lemma ApplyKeeps(s: State, c: Command, o: Area)
    requires s.t.Ok() && Offered(s, c, o) && NoTrap(s, c, o) && Tiled(s, o)
    ensures Tiled(Apply(s, c, o), o) <==> HasRoom(s, c, o)
    ensures Covered(s) && CountsFit(s, c, o) ==> Covered(Apply(s, c, o))
  {
    ApplyTiled(s, c, o);
    if Covered(s) && CountsFit(s, c, o) { ApplyCovered(s, c, o); }
  }

  class MenuEditor {
    const o: Area
    var menu: Menu
    var cuts: seq<Menu>
    var t: Tables

    ghost function St(): State
      reads this
    {
      State(menu, cuts, t)
    }

    ghost predicate Ok()
      reads this
    {
      t.Ok() && Tiled(St(), o)
    }

    constructor (o: Area)
      ensures Ok() && this.o == o && St() == START && Covered(St())
    {
      this.o, menu, cuts, t := o, Nil, [], Tables(Zeros(), Zeros());
      new;
      StartCovered();
    }

    /** Commands that make a button or make one opaque ask for a value first. */
    method TakeNext() returns (rv: nat)
      requires t.Ok()
      modifies this`t
      ensures rv == NextValue(old(t)) && t == AfterNext(old(t))
    {
      rv, t := RvNext(t);
    }

    method NewMenuAt(x: int, y: int)
      requires Ok()
      modifies this
      ensures Ok() && St() == Apply(old(St()), New(x, y), o)
      ensures old(Covered(St())) && old(CountsFit(St(), New(x, y), o)) ==> Covered(St())
    {
      ApplyKeeps(St(), New(x, y), o);
      t := Tables(Zeros(), t.cut);
      var rv := TakeNext();
      menu := NewMenu(x, y, rv, o);
    }

    /** Any edit of one part of the menu: the part is replaced, the stack of cut buttons and
      * the counters follow.
      */
    method EditPart(path: seq<Step>, e: Edit)
      requires Ok() && Offered(St(), EditAt(path, e), o) && NoTrap(St(), EditAt(path, e), o)
      modifies this
      ensures t.Ok() && St() == Apply(old(St()), EditAt(path, e), o)
      ensures Ok() <==> old(HasRoom(St(), EditAt(path, e), o))
      ensures old(Covered(St())) && old(CountsFit(St(), EditAt(path, e), o)) ==> Covered(St())
    {
      ApplyKeeps(St(), EditAt(path, e), o);
      var s := State(menu, cuts, t);
      var m := At(menu, path);
      EditedIsNode(s, m, e, o);
      cuts := Stacked(s, m, e, o);
      if AsksForValue(m, e) {
        var _ := TakeNext();
      } else {
        t := Counted(s, m, e, o);
      }
      menu := Put(menu, path, Edited(s, m, e, o));
    }

    /** Reading a file of menu `m`, written when the editing area was `from`. */
    method ReadFrom(m: Menu, from: Area)
      requires Ok() && Offered(St(), ReadFile(m, from), o)
      modifies this
      ensures t.Ok() && St() == Apply(old(St()), ReadFile(m, from), o)
      ensures Ok() <==> Within(m, Reading.Corner(m))
      ensures menu == ReadBack(m, from, o) && cuts == old(cuts)
      ensures old(Covered(St())) && old(CountsFit(St(), ReadFile(m, from), o)) ==> Covered(St())
    {
      ApplyKeeps(St(), ReadFile(m, from), o);
      menu := ReadBack(m, from, o);
      t := RoundTrip.TakeValues(Tables(Zeros(), t.cut), menu);
    }

    method CutWholeMenu()
      requires Ok() && Offered(St(), CutRoot, o)
      modifies this
      ensures Ok() && St() == Apply(old(St()), CutRoot, o)
      ensures old(Covered(St())) && old(CountsFit(St(), CutRoot, o)) ==> Covered(St())
    {
      ApplyKeeps(St(), CutRoot, o);
      if |cuts| < MAXCUT {
        var piece := Node(menu.b, menu.u, Nil);
        t := MoveValues(t, piece, false);
        cuts := cuts + [piece];
      }
      menu := Nil;
    }

    /** The check the program makes after every command, on the menu or on the submenu that is open, never fails. */
    method AfterCommand(path: seq<Step>) returns (ok: bool)
      requires Ok() && (menu.Node? ==> Has(menu, path) && !PlaceAt(menu, path, Top).Rest?)
      ensures ok
    {
      if menu.Nil? { return true; }
      AtValid(menu, path, Top, o);
      ValidChecks(At(menu, path), PlaceAt(menu, path, Top), o);
      ok := CheckMenu(At(menu, path), PlaceAt(menu, path, Top).Top?);
    }
  }
}
