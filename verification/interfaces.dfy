/** The Stream port (nmigen_sigma_delta/interfaces.py): a record of a payload `data`, the
    handshake bits `valid` and `ready`, and optionally an end-of-burst bit `last`. */
module Interfaces {
  import opened Bits
  import opened Hdl

  /** The declared shape of a Stream: payload width and whether it was built with `last=True`. */
  datatype StreamShape = StreamShape(width: nat, hasLast: bool)

  /** The values on a Stream's signals during one cycle; `last` is `None` when the port has no
      such field. */
  datatype Port = Port(data: nat, valid: bool, ready: bool, last: Option<bool>)

  /** A port's values agree with its declared shape. */
  predicate Fits(p: Port, s: StreamShape)
  {
    p.data < Pow2(s.width) && (p.last.Some? <==> s.hasLast)
  }

  /** The record layout: field names with their widths, in declaration order. */
  function Layout(s: StreamShape): (fields: seq<(string, nat)>)
    ensures |fields| == if s.hasLast then 4 else 3
  {
    [("data", s.width), ("valid", 1), ("ready", 1)] + if s.hasLast then [("last", 1)] else []
  }

  /** The width of the first field called `name`, if the layout has one. */
  function FieldWidth(fields: seq<(string, nat)>, name: string): Option<nat>
  {
    if |fields| == 0 then None
    else if fields[0].0 == name then Some(fields[0].1)
    else FieldWidth(fields[1..], name)
  }

  /** The layout holds a `data` field of the declared width, one-bit `valid` and `ready`, and a
      one-bit `last` exactly when the shape asks for it. */
  lemma LayoutFields(s: StreamShape)
    ensures FieldWidth(Layout(s), "data") == Some(s.width)
    ensures FieldWidth(Layout(s), "valid") == Some(1)
    ensures FieldWidth(Layout(s), "ready") == Some(1)
    ensures FieldWidth(Layout(s), "last") == if s.hasLast then Some(1) else None
  {
    var f := Layout(s);
    var tail: seq<(string, nat)> := if s.hasLast then [("last", 1)] else [];
    assert f[1..] == [("valid", 1), ("ready", 1)] + tail;
    assert f[1..][1..] == [("ready", 1)] + tail;
    assert f[1..][1..][1..] == tail;
    assert "ready" != "data" && "ready" != "valid";
    assert "last" != "data" && "last" != "valid" && "last" != "ready";
    assert FieldWidth(f[1..][1..], "ready") == Some(1);
    assert FieldWidth(f[1..][1..], "last") == FieldWidth(tail, "last");
    if s.hasLast {
      assert tail[0].0 == "last";
    }
  }

  /** A transfer happens on a cycle exactly when the producer offers and the consumer takes. */
  function Accepted(p: Port): bool
  {
    p.valid && p.ready
  }

  /** `connect`: the downstream port takes `data` and `valid` from the upstream one, the upstream
      port takes `ready` from the downstream one, and `last` is forwarded only when the upstream
      port was built with it. The data is truncated to the downstream port's width, as nMigen's
      assignment of a wider value to a narrower signal does. Forwarding `last` into a port that
      lacks the field fails (the attribute lookup raises), which is the `None` result. */
  function Connect(src: Port, srcShape: StreamShape, dst: Port, dstShape: StreamShape): (r: Option<(Port, Port)>)
    ensures r.None? <==> srcShape.hasLast && !dstShape.hasLast
    ensures r.Some? ==> Accepted(r.value.0) == Accepted(r.value.1)
    ensures r.Some? ==> r.value.0 == src.(ready := dst.ready)
    ensures r.Some? ==> r.value.1.valid == src.valid && r.value.1.ready == dst.ready
    ensures r.Some? ==> r.value.1.data == Wrap(src.data, dstShape.width)
    ensures r.Some? ==> r.value.1.last == if srcShape.hasLast then src.last else dst.last
  {
    if srcShape.hasLast && !dstShape.hasLast then None
    else
      var dst' := dst.(data := Wrap(src.data, dstShape.width), valid := src.valid);
      var dst'' := if srcShape.hasLast then dst'.(last := src.last) else dst';
      Some((src.(ready := dst.ready), dst''))
  }

  /** Connecting two ports of one shape loses nothing: the consumer sees exactly what the
      producer drives, and both see the same transfer. */
  lemma ConnectSameShape(src: Port, dst: Port, s: StreamShape)
    requires Fits(src, s) && Fits(dst, s)
    ensures Connect(src, s, dst, s) == Some((src.(ready := dst.ready), src.(ready := dst.ready)))
  {
  }
}
