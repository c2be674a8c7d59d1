/** The register-transfer semantics the stages are written in. Combinational (`comb`) signals are
    plain functions of the current registers and inputs. Clocked (`sync`) assignments are collected
    in program order and applied at the clock edge one after the other, so that of two assignments
    to the same register the later one wins. Every assigned value is kept modulo 2^width of the
    register it lands in. */
module Hdl {
  import opened Bits

  datatype Option<T> = None | Some(value: T)

  /** The registers of one stage: the output payload, the output valid flag, the end-of-burst flag
      (present only when the output port carries one) and the stage's own auxiliary register (the
      comb's delayed sample, the down-sampler's counter; the integrator has none and keeps it 0). */
  datatype Regs = Regs(data: nat, valid: bool, last: Option<bool>, aux: nat)

  /** Declared widths of the payload and auxiliary registers. */
  datatype Widths = Widths(data: nat, aux: nat)

  /** One clocked assignment, carrying the unreduced value of its right-hand side. */
  datatype Assign = SetData(value: int) | SetValid(flag: bool) | SetLast(flag: bool) | SetAux(value: int)

  datatype Field = DataField | ValidField | LastField | AuxField

  function Target(a: Assign): Field
  {
    match a
    case SetData(_) => DataField
    case SetValid(_) => ValidField
    case SetLast(_) => LastField
    case SetAux(_) => AuxField
  }

  /** No assignment of `body` targets field `f`. */
  predicate Untouched(body: seq<Assign>, f: Field)
  {
    forall i :: 0 <= i < |body| ==> Target(body[i]) != f
  }

  /** The effect of one assignment on the registers. */
  function Latch(r: Regs, a: Assign, w: Widths): (r': Regs)
    ensures Target(a) != DataField ==> r'.data == r.data
    ensures Target(a) != ValidField ==> r'.valid == r.valid
    ensures Target(a) != LastField ==> r'.last == r.last
    ensures Target(a) != AuxField ==> r'.aux == r.aux
    ensures a.SetData? ==> r'.data == Wrap(a.value, w.data)
    ensures a.SetAux? ==> r'.aux == Wrap(a.value, w.aux)
  {
    match a
    case SetData(v) => r.(data := Wrap(v, w.data))
    case SetValid(b) => r.(valid := b)
    case SetLast(b) => r.(last := Some(b))
    case SetAux(v) => r.(aux := Wrap(v, w.aux))
  }

  /** The clock edge: the clocked assignments of one cycle applied in program order. */
  function Commit(r: Regs, body: seq<Assign>, w: Widths): (r': Regs)
    ensures Untouched(body, DataField) ==> r'.data == r.data
    ensures Untouched(body, ValidField) ==> r'.valid == r.valid
    ensures Untouched(body, LastField) ==> r'.last == r.last
    ensures Untouched(body, AuxField) ==> r'.aux == r.aux
    ensures r'.data < Pow2(w.data) || r'.data == r.data
    ensures r'.aux < Pow2(w.aux) || r'.aux == r.aux
    decreases |body|
  {
    if |body| == 0 then r
    else
      var rest := Commit(Latch(r, body[0], w), body[1..], w);
      assert forall f :: Untouched(body, f) ==> Untouched(body[1..], f) by {
        forall f | Untouched(body, f) ensures Untouched(body[1..], f) {
          forall i | 0 <= i < |body[1..]| ensures Target(body[1..][i]) != f {
            assert body[1..][i] == body[i + 1];
          }
        }
      }
      rest
  }

  /** Applying two statement lists in turn is applying their concatenation. */
  lemma {:induction false} CommitAppend(r: Regs, a: seq<Assign>, b: seq<Assign>, w: Widths)
    ensures Commit(r, a + b, w) == Commit(Commit(r, a, w), b, w)
    decreases |a|
  {
    if |a| > 0 {
      assert (a + b)[0] == a[0];
      assert (a + b)[1..] == a[1..] + b;
      CommitAppend(Latch(r, a[0], w), a[1..], b, w);
    } else {
      assert a + b == b;
    }
  }

  lemma CommitOne(r: Regs, a: Assign, w: Widths)
    ensures Commit(r, [a], w) == Latch(r, a, w)
  {
    assert [a][1..] == [];
  }

  /** Last assignment wins: after `a + [s] + b`, the field `s` targets holds what `s` assigned,
      provided nothing in `b` assigns that field again. */
  lemma LastWriteWins(r: Regs, a: seq<Assign>, s: Assign, b: seq<Assign>, w: Widths)
    requires Untouched(b, Target(s))
    ensures var r' := Commit(r, a + [s] + b, w);
      match s
      case SetData(v) => r'.data == Wrap(v, w.data)
      case SetValid(f) => r'.valid == f
      case SetLast(f) => r'.last == Some(f)
      case SetAux(v) => r'.aux == Wrap(v, w.aux)
  {
    CommitAppend(r, a + [s], b, w);
    CommitAppend(r, a, [s], w);
    var mid := Commit(r, a, w);
    assert [s][1..] == [];
    assert Commit(mid, [s], w) == Latch(mid, s, w);
  }

  /** The registers a stage holds when it leaves reset: every signal reset to zero. */
  function Reset(hasLast: bool): (r: Regs)
    ensures !r.valid && r.data == 0 && r.aux == 0
    ensures r.last.Some? <==> hasLast
  {
    Regs(0, false, if hasLast then Some(false) else None, 0)
  }
}
