/**
 * Error propagation as the library's own example program uses it
 * (`test/src/test_integration.cpp`): an operation makes a fresh head
 * holding its outcome and links its operands' chains after it, so the
 * head's trace reads from the latest step back to the inputs. Errors are
 * carried as the text their `what()` gives; `float` arithmetic is exact
 * `real` arithmetic here.
 */
module Propagation {
  import opened LibException
  import opened LibResult

  type Value = Variant<real, string>

  /** `what()` of an error made with the given message at location `divide`. */
  function InDivide(message: string): string
  {
    Combined(message, "divide")
  }

  /** What `divide` reports for operands holding `x` and `y`. */
  function Quotient(x: real, y: real): Value
  {
    if y != 0.0 then OkOf(x / y) else ErrOf(InDivide("Division by zero"))
  }

  /**
   * The chain `divide` returns, from its operands' chains: both heads `Ok`
   * gives their quotient followed by `b`'s and then `a`'s chain; otherwise a
   * received-error head followed by the chains of the operands that failed.
   */
  function Divided(va: seq<Value>, vb: seq<Value>): (vs: seq<Value>)
    requires |va| > 0 && |vb| > 0
  {
    match (va[0], vb[0])
    case (OkOf(x), OkOf(y)) => [Quotient(x, y)] + vb + va
    case (ErrOf(_), ErrOf(_)) => [ErrOf(InDivide("Recieved Err value"))] + vb + va
    case (ErrOf(_), OkOf(_)) => [ErrOf(InDivide("Recieved Err value"))] + va
    case (OkOf(_), ErrOf(_)) => [ErrOf(InDivide("Recieved Err value"))] + vb
  }

  /**
   * The outcome of `divide` is `Ok` exactly when both operands are `Ok` and
   * the divisor is not zero, and then it holds the quotient.
   */
  lemma DividedOk(va: seq<Value>, vb: seq<Value>)
    requires |va| > 0 && |vb| > 0
    ensures Divided(va, vb)[0].OkOf? <==> va[0].OkOf? && vb[0].OkOf? && vb[0].value != 0.0
    ensures Divided(va, vb)[0].OkOf? ==> Divided(va, vb)[0].value == va[0].value / vb[0].value
  {
  }

  /**
   * No trace is lost: when both operands succeed the result keeps both
   * chains after the quotient; otherwise the chain of every operand that
   * failed follows the received-error head whole, `b`'s first.
   */
  lemma DividedKeepsTraces(va: seq<Value>, vb: seq<Value>)
    requires |va| > 0 && |vb| > 0
    ensures va[0].OkOf? && vb[0].OkOf? ==> Divided(va, vb)[1..] == vb + va
    ensures vb[0].ErrOf? ==> Divided(va, vb)[1..1 + |vb|] == vb
    ensures va[0].ErrOf? ==> Divided(va, vb)[|Divided(va, vb)| - |va|..] == va
    ensures |Divided(va, vb)| == 1 + (if va[0].OkOf? && vb[0].ErrOf? then 0 else |va|)
                                   + (if va[0].ErrOf? && vb[0].OkOf? then 0 else |vb|)
  {
  }

  /**
   * `divide(a, b)` over the chains headed by `a` and `b`, which share no
   * node: the returned head is fresh and its chain is `Divided` of theirs.
   */
  method Divide(a: Result<real, string>, b: Result<real, string>) returns (c: Result<real, string>)
    requires a.Valid() && b.Valid() && a.Repr !! b.Repr
    modifies b.Repr
    ensures c.Valid() && fresh(c)
    ensures c.View() == Divided(old(a.View()), old(b.View()))
  {
    if b.IsOk() && a.IsOk() {
      c := DivideValues(a, b);
    } else {
      c := DivideFailed(a, b);
    }
  }

  /** The branch of `divide` where both operands hold a value. */
  method DivideValues(a: Result<real, string>, b: Result<real, string>) returns (c: Result<real, string>)
    requires a.Valid() && b.Valid() && a.Repr !! b.Repr
    requires a.IsOk() && b.IsOk()
    modifies b.Repr
    ensures c.Valid() && fresh(c)
    ensures c.View() == Divided(old(a.View()), old(b.View()))
  {
    ghost var va, vb := a.View(), b.View();
    var x, y := a.Unwrap().value, b.Unwrap().value;
    assert va[0] == OkOf(x) && vb[0] == OkOf(y);
    c := Fresh(Quotient(x, y));
    Trail(c, b, a);
  }

  /** The branches of `divide` where at least one operand holds an error. */
  method DivideFailed(a: Result<real, string>, b: Result<real, string>) returns (c: Result<real, string>)
    requires a.Valid() && b.Valid() && a.Repr !! b.Repr
    requires a.IsErr() || b.IsErr()
    modifies b.Repr
    ensures c.Valid() && fresh(c)
    ensures c.View() == Divided(old(a.View()), old(b.View()))
  {
    ghost var va, vb := a.View(), b.View();
    assert va[0] == a.Current() && vb[0] == b.Current();
    c := Fresh(ErrOf(InDivide("Recieved Err value")));
    if a.IsErr() && b.IsErr() {
      Trail(c, b, a);
    } else if a.IsErr() {
      c.PushBack(a);
    } else {
      c.PushBack(b);
    }
  }

  /** `new Ok(v)`, or `new Err(new E(...))` with the error's `what()` text. */
  method Fresh(v: Value) returns (c: Result<real, string>)
    ensures c.Valid() && fresh(c.Repr)
    ensures c.View() == [v]
  {
    if v.OkOf? {
      c := new Result.Ok(v.value);
    } else {
      var p := new Box(v.error);
      c := new Result.ErrOwning(p);
    }
  }

  /** `c.push_back(x); c.push_back(y);`: both chains follow `c`'s, in that order. */
  method Trail(c: Result<real, string>, x: Result<real, string>, y: Result<real, string>)
    requires c.Valid() && x.Valid() && y.Valid()
    requires c.Repr !! x.Repr && c.Repr !! y.Repr && x.Repr !! y.Repr
    modifies c.Repr, x.Repr
    ensures c.Valid()
    ensures c.View() == old(c.View()) + old(x.View()) + old(y.View())
  {
    c.PushBack(x);
    c.PushBack(y);
  }
}
