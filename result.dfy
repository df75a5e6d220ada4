/**
 * The result chain (`include/libresult.hpp`). A node is an `Ok` holding a
 * `T` or an `Err` holding an `E`; its payload lives on the heap and is
 * reached through the erased pointer in the node's `ResultBase` cell. Every
 * node may own a `next` node, so a head owns a singly linked trace of the
 * results that fed into it, and `push_back` appends at the tail.
 *
 * The source's abstract class and its two final subclasses are one class
 * here, `Result`, whose constant `ok` is the dynamic type. The ghost field
 * `Repr` records everything the chain from a node owns: its nodes, their
 * cells and their payloads.
 */
module LibResult {
  import opened Cell

  /** A payload allocated with `new T` or `new E`. */
  class Box<V> {
    var val: V

    constructor (v: V)
      ensures val == v
    {
      val := v;
    }
  }

  /** The `void*` in the cell; which of the two it points to only the variant knows. */
  datatype VoidPtr<T, E> = PtrT(t: Box<T>) | PtrE(e: Box<E>) {
    function Addr(): object
    {
      match this
      case PtrT(b) => b
      case PtrE(b) => b
    }
  }

  /** The value a node holds. */
  datatype Variant<T, E> = OkOf(value: T) | ErrOf(error: E)

  /** The outcome of `unwrap`/`expect`: the held `T` returned, or the held `E` thrown. */
  datatype Unwrapped<T, E> = Returned(value: T) | Raised(error: E)

  /** One line of `get_trace` output: a payload as printed by `<<`, or an error's `what()`. */
  datatype Line<T> = Shown(value: T) | Diagnostic(text: string)

  /** The line `get_trace` prints for one node, given `E::what`. */
  function Render<T, E>(v: Variant<T, E>, what: E -> string): (line: Line<T>)
    ensures line.Shown? <==> v.OkOf?
    ensures v.OkOf? ==> line.value == v.value
    ensures v.ErrOf? ==> line.text == what(v.error)
  {
    match v
    case OkOf(x) => Shown(x)
    case ErrOf(e) => Diagnostic(what(e))
  }

  /** One line per node, head to tail. */
  function RenderAll<T, E>(vs: seq<Variant<T, E>>, what: E -> string): (lines: seq<Line<T>>)
    ensures |lines| == |vs|
    ensures forall i :: 0 <= i < |vs| ==> lines[i] == Render(vs[i], what)
  {
    if vs == [] then [] else [Render(vs[0], what)] + RenderAll(vs[1..], what)
  }

  /** No object is listed twice. */
  predicate Distinct(s: seq<object>)
  {
    forall i, j :: 0 <= i < j < |s| ==> s[i] != s[j]
  }

  class Result<T, E> {
    /** The dynamic type: `Ok` when true, `Err` when false. */
    const ok: bool
    /** The `ResultBase` part of the node. */
    const base: ResultBase<VoidPtr<T, E>>
    var next: Result?<T, E>

    ghost var Repr: set<object>

    /** The stored pointer points to a payload of the node's own variant. */
    ghost predicate NodeValid()
      reads base.pimpl
    {
      ok == base.Unwrap().PtrT?
    }

    /** The address of the payload this node owns. */
    function Pointee(): object
      reads base.pimpl
    {
      base.Unwrap().Addr()
    }

    /**
     * The chain from this node: acyclic, each node owning its own cell and
     * payload and the rest of the chain, and nothing shared between nodes.
     */
    ghost predicate Valid()
      reads this, Repr
      decreases Repr
    {
      && this in Repr && base.pimpl in Repr && Pointee() in Repr
      && NodeValid()
      && (next == null ==> Repr == {this, base.pimpl, Pointee()})
      && (next != null ==>
            && next in Repr && next.Repr <= Repr
            && this !in next.Repr && base.pimpl !in next.Repr && Pointee() !in next.Repr
            && Repr == {this, base.pimpl, Pointee()} + next.Repr
            && next.Valid())
    }

    /** The value this node holds. */
    ghost function Current(): Variant<T, E>
      reads base.pimpl, Pointee()
    {
      match base.Unwrap()
      case PtrT(b) => OkOf(b.val)
      case PtrE(b) => ErrOf(b.val)
    }

    /** The values of the chain, head to tail. */
    ghost function View(): (vs: seq<Variant<T, E>>)
      reads this, Repr
      requires Valid()
      decreases Repr
    {
      [Current()] + if next == null then [] else next.View()
    }

    // ---------------------------------------------------------------- queries

    /** `is_ok`: answered from the variant alone. */
    predicate IsOk()
    {
      ok
    }

    /** `is_ok` answers from the tag, and the tag always agrees with the payload the cell points to. */
    lemma IsOkMatchesPayload()
      requires NodeValid()
      ensures IsOk() <==> Current().OkOf?
      ensures IsOk() <==> base.Unwrap().PtrT?
    {
    }

    /** `is_err`: exactly when the node is not an `Ok`. */
    function IsErr(): (b: bool)
      ensures b == !IsOk()
    {
      !ok
    }

    /** `Ok::get_wrapped`: the held `T`. */
    function GetWrapped(): (v: T)
      reads base.pimpl, Pointee()
      requires NodeValid() && IsOk()
      ensures Current() == OkOf(v)
    {
      base.Unwrap().t.val
    }

    /** `Err::get_wrapped`: the held `E`. */
    function GetError(): (e: E)
      reads base.pimpl, Pointee()
      requires NodeValid() && IsErr()
      ensures Current() == ErrOf(e)
    {
      base.Unwrap().e.val
    }

    /** `unwrap`: an `Ok` returns its `T`; an `Err` never returns and throws its `E`. */
    function Unwrap(): (r: Unwrapped<T, E>)
      reads base.pimpl, Pointee()
      requires NodeValid()
      ensures r.Returned? <==> IsOk()
      ensures Current().OkOf? ==> r == Returned(Current().value)
      ensures Current().ErrOf? ==> r == Raised(Current().error)
    {
      if ok then Returned(GetWrapped()) else Raised(GetError())
    }

    /** `expect(s)`: the same outcome as `unwrap`, whatever `s` is; `s` only goes to the console. */
    function Expect(s: string): (r: Unwrapped<T, E>)
      reads base.pimpl, Pointee()
      requires NodeValid()
      ensures r == Unwrap()
      ensures r.Returned? <==> IsOk()
      ensures Current().OkOf? ==> r == Returned(Current().value)
      ensures Current().ErrOf? ==> r == Raised(Current().error)
    {
      Unwrap()
    }

    /** `Err::what`: the held error's own `what()`. */
    function What(what: E -> string): (text: string)
      reads base.pimpl, Pointee()
      requires NodeValid() && IsErr()
      ensures Current().ErrOf? && text == what(Current().error)
    {
      what(GetError())
    }

    /** `Err::where`: the held error's own `where()`. */
    function Where(where: E -> string): (text: string)
      reads base.pimpl, Pointee()
      requires NodeValid() && IsErr()
      ensures Current().ErrOf? && text == where(Current().error)
    {
      where(GetError())
    }

    /**
     * `get_trace`: one line per node from this one to the tail, `what()`
     * for an `Err` and the payload for an `Ok`. A function, so the chain
     * is left as it was.
     */
    function GetTrace(what: E -> string): (lines: seq<Line<T>>)
      reads this, Repr
      requires Valid()
      decreases Repr
      ensures lines == RenderAll(View(), what)
    {
      var line := if IsErr() then Diagnostic(What(what)) else Shown(Unwrap().value);
      [line] + if next == null then [] else next.GetTrace(what)
    }

    // ----------------------------------------------------------- constructors

    /** `Ok(const T&)` and `Ok(T&&)`: a fresh `T` holding `v`. */
    constructor Ok(v: T)
      ensures Valid() && IsOk() && next == null
      ensures View() == [OkOf(v)]
      ensures fresh(base.pimpl) && fresh(Pointee())
    {
      ok := true;
      var p := new Box(v);
      base := new ResultBase(PtrT(p));
      next := null;
      new;
      Repr := {this, base.pimpl, p};
    }

    /** `Ok(T*)`: takes ownership of an already allocated `T`. */
    constructor OkOwning(p: Box<T>)
      ensures Valid() && IsOk() && next == null
      ensures Pointee() == p && View() == [OkOf(p.val)]
      ensures fresh(base.pimpl)
    {
      ok := true;
      base := new ResultBase(PtrT(p));
      next := null;
      new;
      Repr := {this, base.pimpl, p};
    }

    /** `Ok(const Ok&)`: a fresh copy of the other node's `T` (see README on line 201). */
    constructor OkCopy(other: Result<T, E>)
      requires other.NodeValid() && other.IsOk()
      ensures Valid() && IsOk() && next == null
      ensures View() == [OkOf(other.GetWrapped())]
      ensures fresh(base.pimpl) && fresh(Pointee())
    {
      ok := true;
      var p := new Box(other.GetWrapped());
      base := new ResultBase(PtrT(p));
      next := null;
      new;
      Repr := {this, base.pimpl, p};
    }

    /** `Ok(Ok&&)`: takes the other node's `T` by `move_out`, leaving it holding `dflt`. */
    constructor OkMoving(other: Result<T, E>, dflt: T)
      requires other.NodeValid() && other.IsOk()
      modifies other.Pointee()
      ensures Valid() && IsOk() && next == null
      ensures View() == [OkOf(old(other.GetWrapped()))]
      ensures other.Current() == OkOf(dflt)
      ensures fresh(base.pimpl) && fresh(Pointee())
    {
      ok := true;
      var p := other.MoveOut(dflt);
      base := new ResultBase(PtrT(p));
      next := null;
      new;
      Repr := {this, base.pimpl, p};
    }

    /** `Err(const E&)` and `Err(E&&)`: a fresh `E` holding `e`. */
    constructor Err(e: E)
      ensures Valid() && IsErr() && next == null
      ensures View() == [ErrOf(e)]
      ensures fresh(base.pimpl) && fresh(Pointee())
    {
      ok := false;
      var p := new Box(e);
      base := new ResultBase(PtrE(p));
      next := null;
      new;
      Repr := {this, base.pimpl, p};
    }

    /** `Err(E*)`: takes ownership of an already allocated `E`. */
    constructor ErrOwning(p: Box<E>)
      ensures Valid() && IsErr() && next == null
      ensures Pointee() == p && View() == [ErrOf(p.val)]
      ensures fresh(base.pimpl)
    {
      ok := false;
      base := new ResultBase(PtrE(p));
      next := null;
      new;
      Repr := {this, base.pimpl, p};
    }

    /** `Err(const Err&)`: a fresh copy of the other node's `E`. */
    constructor ErrCopy(other: Result<T, E>)
      requires other.NodeValid() && other.IsErr()
      ensures Valid() && IsErr() && next == null
      ensures View() == [ErrOf(other.GetError())]
      ensures fresh(base.pimpl) && fresh(Pointee())
    {
      ok := false;
      var p := new Box(other.GetError());
      base := new ResultBase(PtrE(p));
      next := null;
      new;
      Repr := {this, base.pimpl, p};
    }

    /** `Err(Err&&)`: takes the other node's `E` by `move_out`, leaving it holding `dflt`. */
    constructor ErrMoving(other: Result<T, E>, dflt: E)
      requires other.NodeValid() && other.IsErr()
      modifies other.Pointee()
      ensures Valid() && IsErr() && next == null
      ensures View() == [ErrOf(old(other.GetError()))]
      ensures other.Current() == ErrOf(dflt)
      ensures fresh(base.pimpl) && fresh(Pointee())
    {
      ok := false;
      var p := other.ErrMoveOut(dflt);
      base := new ResultBase(PtrE(p));
      next := null;
      new;
      Repr := {this, base.pimpl, p};
    }

    // ------------------------------------------------------------------ moves

    /**
     * `Ok::move_out`: a fresh `T` (made as `new T`, here `dflt`) is swapped
     * with the held one and returned, so this node keeps its pointer but
     * now holds `dflt`.
     */
    method MoveOut(dflt: T) returns (p: Box<T>)
      requires NodeValid() && IsOk()
      modifies Pointee()
      ensures fresh(p) && p.val == old(GetWrapped())
      ensures Current() == OkOf(dflt)
    {
      var mine := base.Unwrap().t;
      p := new Box(dflt);
      mine.val, p.val := p.val, mine.val;
    }

    /** `Err::move_out`: as `Ok::move_out`, over `E`. */
    method ErrMoveOut(dflt: E) returns (p: Box<E>)
      requires NodeValid() && IsErr()
      modifies Pointee()
      ensures fresh(p) && p.val == old(GetError())
      ensures Current() == ErrOf(dflt)
    {
      var mine := base.Unwrap().e;
      p := new Box(dflt);
      mine.val, p.val := p.val, mine.val;
    }

    // ------------------------------------------------------------ assignments

    /**
     * `Ok::operator=(const T&)`: `src` is the argument's address. Assigning
     * the held `T` to itself does nothing; otherwise the held `T` is
     * overwritten in place and nothing else in the chain changes.
     */
    method AssignValue(src: Box<T>)
      requires NodeValid() && IsOk()
      modifies Pointee()
      ensures Current() == OkOf(old(src.val))
      ensures src == Pointee() ==> unchanged(Pointee())
      ensures old(Valid()) ==> Valid() && View() == [OkOf(old(src.val))] + old(View())[1..]
    {
      var mine := base.Unwrap().t;
      if src == mine {
        return;
      }
      mine.val := src.val;
    }

    /** `Ok::operator=(const Ok&)`: a no-op on itself; otherwise copies the other node's `T` in place. */
    method AssignOk(other: Result<T, E>)
      requires NodeValid() && IsOk() && other.NodeValid() && other.IsOk()
      modifies Pointee()
      ensures Current() == OkOf(old(other.GetWrapped()))
      ensures other == this ==> unchanged(Pointee())
      ensures old(Valid()) ==> Valid() && View() == [Current()] + old(View())[1..]
    {
      if other == this {
        return;
      }
      var mine := base.Unwrap().t;
      mine.val := other.GetWrapped();
    }

    /**
     * `Ok::operator=(T*)`: a no-op when `p` is already the held pointer;
     * otherwise the held `T` is released and `p` becomes the payload.
     * `freed` lists what is released.
     */
    method AssignOwned(p: Box<T>) returns (freed: seq<object>)
      requires Valid() && IsOk()
      requires p == Pointee() || p !in Repr
      modifies this, base.pimpl
      ensures Valid() && Pointee() == p
      ensures View() == [OkOf(p.val)] + old(View())[1..]
      ensures Repr == old(Repr) - {old(Pointee())} + {p}
      ensures freed == if p == old(Pointee()) then [] else [old(Pointee())]
    {
      var mine := base.Unwrap().t;
      if p == mine {
        return [];
      }
      ghost var tail := if next == null then [] else next.View();
      freed := [mine];
      base.Set(PtrT(p));
      Repr := Repr - {mine} + {p};
      assert next != null ==> next.Valid() && next.View() == tail;
    }

    /**
     * `Ok::operator=(Ok&&)`: a no-op on itself; otherwise the other node's
     * `T` is taken by `move_out` (leaving it `dflt`), the held `T` is
     * released and the taken one installed.
     */
    method MoveAssign(other: Result<T, E>, dflt: T) returns (freed: seq<object>)
      requires Valid() && IsOk() && other.NodeValid() && other.IsOk()
      requires other == this || other.Pointee() !in Repr
      modifies this, base.pimpl, other.Pointee()
      ensures Valid()
      ensures other == this ==> View() == old(View()) && Pointee() == old(Pointee()) && freed == []
      ensures other != this ==>
        && fresh(Pointee())
        && View() == [OkOf(old(other.GetWrapped()))] + old(View())[1..]
        && other.Current() == OkOf(dflt)
        && Repr == old(Repr) - {old(Pointee())} + {Pointee()}
        && freed == [old(Pointee())]
    {
      if other == this {
        return [];
      }
      var taken := other.MoveOut(dflt);
      freed := AssignOwned(taken);
    }

    /** `Err::operator=(const E&)`: as `Ok::operator=(const T&)`, over `E`. */
    method AssignError(src: Box<E>)
      requires NodeValid() && IsErr()
      modifies Pointee()
      ensures Current() == ErrOf(old(src.val))
      ensures src == Pointee() ==> unchanged(Pointee())
      ensures old(Valid()) ==> Valid() && View() == [ErrOf(old(src.val))] + old(View())[1..]
    {
      var mine := base.Unwrap().e;
      if src == mine {
        return;
      }
      mine.val := src.val;
    }

    /** `Err::operator=(const Err&)`: a no-op on itself; otherwise copies the other node's `E` in place. */
    method AssignErr(other: Result<T, E>)
      requires NodeValid() && IsErr() && other.NodeValid() && other.IsErr()
      modifies Pointee()
      ensures Current() == ErrOf(old(other.GetError()))
      ensures other == this ==> unchanged(Pointee())
      ensures old(Valid()) ==> Valid() && View() == [Current()] + old(View())[1..]
    {
      if other == this {
        return;
      }
      var mine := base.Unwrap().e;
      mine.val := other.GetError();
    }

    /** `Err::operator=(E*)`: as `Ok::operator=(T*)`, over `E`. */
    method AssignOwnedError(p: Box<E>) returns (freed: seq<object>)
      requires Valid() && IsErr()
      requires p == Pointee() || p !in Repr
      modifies this, base.pimpl
      ensures Valid() && Pointee() == p
      ensures View() == [ErrOf(p.val)] + old(View())[1..]
      ensures Repr == old(Repr) - {old(Pointee())} + {p}
      ensures freed == if p == old(Pointee()) then [] else [old(Pointee())]
    {
      var mine := base.Unwrap().e;
      if p == mine {
        return [];
      }
      ghost var tail := if next == null then [] else next.View();
      freed := [mine];
      base.Set(PtrE(p));
      Repr := Repr - {mine} + {p};
      assert next != null ==> next.Valid() && next.View() == tail;
    }

    /** `Err::operator=(Err&&)`: as `Ok::operator=(Ok&&)`, over `E`. */
    method MoveAssignErr(other: Result<T, E>, dflt: E) returns (freed: seq<object>)
      requires Valid() && IsErr() && other.NodeValid() && other.IsErr()
      requires other == this || other.Pointee() !in Repr
      modifies this, base.pimpl, other.Pointee()
      ensures Valid()
      ensures other == this ==> View() == old(View()) && Pointee() == old(Pointee()) && freed == []
      ensures other != this ==>
        && fresh(Pointee())
        && View() == [ErrOf(old(other.GetError()))] + old(View())[1..]
        && other.Current() == ErrOf(dflt)
        && Repr == old(Repr) - {old(Pointee())} + {Pointee()}
        && freed == [old(Pointee())]
    {
      if other == this {
        return [];
      }
      var taken := other.ErrMoveOut(dflt);
      freed := AssignOwnedError(taken);
    }


    // ------------------------------------------------------------- the chain

    /**
     * `push_back(Result&)`: link `r` (and whatever chain it heads) after the
     * current tail. `r` itself becomes part of this chain; nothing is copied
     * and no existing node or payload changes.
     */
    method PushBack(r: Result<T, E>)
      requires Valid() && r.Valid()
      requires Repr !! r.Repr
      modifies Repr
      decreases Repr
      ensures Valid()
      ensures Repr == old(Repr) + r.Repr
      ensures View() == old(View()) + old(r.View())
    {
      if next == null {
        Link(r);
      } else {
        ghost var repr, head, tail := next.Repr, Current(), next.View();
        next.PushBack(r);
        Relink();
        ConsAppend(head, tail, old(r.View()));
        UnionAssoc({this, base.pimpl, Pointee()}, repr, r.Repr);
      }
    }

    /** The `next == nullptr` branch of `push_back`: `r` becomes `next`. */
    method Link(r: Result<T, E>)
      requires Valid() && r.Valid() && next == null
      requires Repr !! r.Repr
      modifies this
      ensures Valid() && next == r
      ensures Repr == old(Repr) + r.Repr
      ensures View() == old(View()) + r.View()
    {
      next := r;
      Relink();
    }

    /** After the rest of the chain has grown, this node's record of it is brought up to date. */
    ghost method Relink()
      requires next != null && next.Valid() && NodeValid()
      requires this !in next.Repr && base.pimpl !in next.Repr && Pointee() !in next.Repr
      modifies this
      ensures Valid() && next == old(next)
      ensures Repr == {this, base.pimpl, Pointee()} + next.Repr
      ensures Current() == old(Current())
      ensures View() == [Current()] + next.View()
    {
      Repr := {this, base.pimpl, Pointee()} + next.Repr;
    }

    /** `push_back(const T&)`: a fresh `Ok` holding a copy of `t` becomes the new tail. */
    method PushBackValue(t: T)
      requires Valid()
      modifies Repr
      decreases Repr
      ensures Valid()
      ensures old(Repr) <= Repr && fresh(Repr - old(Repr))
      ensures View() == old(View()) + [OkOf(t)]
    {
      if next == null {
        var n := new Result.Ok(t);
        Link(n);
      } else {
        ghost var head, tail := Current(), next.View();
        next.PushBackValue(t);
        Relink();
        ConsAppend(head, tail, [OkOf(t)]);
      }
    }

    /** `push_back(E)`: a fresh `Err` holding a copy of `e` becomes the new tail. */
    method PushBackError(e: E)
      requires Valid()
      modifies Repr
      decreases Repr
      ensures Valid()
      ensures old(Repr) <= Repr && fresh(Repr - old(Repr))
      ensures View() == old(View()) + [ErrOf(e)]
    {
      if next == null {
        var n := new Result.Err(e);
        Link(n);
      } else {
        ghost var head, tail := Current(), next.View();
        next.PushBackError(e);
        Relink();
        ConsAppend(head, tail, [ErrOf(e)]);
      }
    }

    /**
     * `delete` of a head: `~Ok`/`~Err` release the payload, `~Result`
     * deletes `next` (the rest of the chain, recursively), `~ResultBase`
     * releases the cell, and then the node itself goes. `freed` lists the
     * released objects in that order: every object the chain owns, each
     * exactly once, three per node.
     */
    method Destroy() returns (freed: seq<object>)
      requires Valid()
      decreases Repr
      ensures Distinct(freed)
      ensures |freed| == 3 * |View()|
      ensures forall o :: o in freed <==> o in Repr
    {
      var payload := Pointee();
      var rest: seq<object> := [];
      if next != null {
        rest := next.Destroy();
      }
      var cell := base.Destroy();
      assert payload !in rest && base.pimpl !in rest && this !in rest;
      DistinctConcat([payload], rest);
      DistinctConcat([payload] + rest, cell + [this]);
      freed := [payload] + rest + cell + [this];
    }
  }

  /** Prepending one element and appending a sequence can be done in either order. */
  lemma ConsAppend<X>(x: X, a: seq<X>, b: seq<X>)
    ensures [x] + (a + b) == ([x] + a) + b
  {
  }

  /** Set union regroups freely. */
  lemma UnionAssoc<X>(x: set<X>, a: set<X>, b: set<X>)
    ensures x + (a + b) == (x + a) + b
  {
  }

  /** Two repetition-free lists with nothing in common concatenate to a repetition-free list. */
  lemma DistinctConcat(a: seq<object>, b: seq<object>)
    requires Distinct(a) && Distinct(b)
    requires forall o :: o in a ==> o !in b
    ensures Distinct(a + b)
  {
    forall i, j | 0 <= i < j < |a + b|
      ensures (a + b)[i] != (a + b)[j]
    {
      if j < |a| {
        assert (a + b)[i] == a[i] && (a + b)[j] == a[j];
      } else if |a| <= i {
        assert (a + b)[i] == b[i - |a|] && (a + b)[j] == b[j - |a|];
      } else {
        assert (a + b)[i] == a[i] && (a + b)[j] == b[j - |a|];
        assert a[i] in a && b[j - |a|] in b;
      }
    }
  }
}
