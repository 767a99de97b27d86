/** The command/data wire protocol of the e-paper controllers, as a trace.

    Every byte put on the SPI bus travels with the level of the data/command
    select line: low for a command (`Cmd`), high for data (`Dat`).  A `Frame`
    is the bytes sent while chip-select is held low once; `Wait` records a
    call of the busy-pin wait loop (whose polling is not modelled).  The
    drivers append events to their trace and never remove any. */
module Wire {

  datatype Signal = Cmd(value: bv8) | Dat(value: bv8)

  datatype Event = Frame(signals: seq<Signal>) | Wait

  /** The data bytes `s`, each driven with data/command select high. */
  function Dats(s: seq<bv8>): (r: seq<Signal>)
    ensures |r| == |s|
    ensures forall k :: 0 <= k < |s| ==> r[k] == Dat(s[k])
  {
    if s == [] then [] else [Dat(s[0])] + Dats(s[1..])
  }

  /** The bytes on the wire, in order, frame boundaries and waits dropped. */
  function Bytes(trace: seq<Event>): seq<Signal> {
    if trace == [] then []
    else (match trace[0] case Frame(ss) => ss case Wait => []) + Bytes(trace[1..])
  }

  /** The opcodes of a byte stream, in order. */
  function Opcodes(ss: seq<Signal>): seq<bv8> {
    if ss == [] then []
    else (if ss[0].Cmd? then [ss[0].value] else []) + Opcodes(ss[1..])
  }

  /** The data bytes of a byte stream, in order. */
  function DataBytes(ss: seq<Signal>): seq<bv8> {
    if ss == [] then []
    else (if ss[0].Dat? then [ss[0].value] else []) + DataBytes(ss[1..])
  }

  /** What the controller receives for opcode `op`: every data byte whose most
      recent preceding command byte is `op`.  `active` says whether `op` is
      the current command when `ss` starts. */
  function Payload(ss: seq<Signal>, op: bv8, active: bool): seq<bv8> {
    if ss == [] then []
    else match ss[0]
      case Cmd(c) => Payload(ss[1..], op, c == op)
      case Dat(b) => (if active then [b] else []) + Payload(ss[1..], op, active)
  }

  /** Whether `op` is the current command after `ss`. */
  function ActiveAfter(ss: seq<Signal>, op: bv8, active: bool): bool {
    if ss == [] then active
    else match ss[0]
      case Cmd(c) => ActiveAfter(ss[1..], op, c == op)
      case Dat(_) => ActiveAfter(ss[1..], op, active)
  }

  lemma {:induction false} BytesAppend(t: seq<Event>, u: seq<Event>)
    ensures Bytes(t + u) == Bytes(t) + Bytes(u)
  {
    if t == [] {
      assert t + u == u;
    } else {
      assert (t + u)[1..] == t[1..] + u;
      BytesAppend(t[1..], u);
    }
  }

  lemma {:induction false} OpcodesAppend(s: seq<Signal>, t: seq<Signal>)
    ensures Opcodes(s + t) == Opcodes(s) + Opcodes(t)
  {
    if s == [] {
      assert s + t == t;
    } else {
      var head := if s[0].Cmd? then [s[0].value] else [];
      assert (s + t)[0] == s[0] && (s + t)[1..] == s[1..] + t;
      OpcodesAppend(s[1..], t);
      calc {
        Opcodes(s + t);
        head + Opcodes(s[1..] + t);
        head + (Opcodes(s[1..]) + Opcodes(t));
        (head + Opcodes(s[1..])) + Opcodes(t);
      }
    }
  }

  lemma {:induction false} DataBytesAppend(s: seq<Signal>, t: seq<Signal>)
    ensures DataBytes(s + t) == DataBytes(s) + DataBytes(t)
  {
    if s == [] {
      assert s + t == t;
    } else {
      var head := if s[0].Dat? then [s[0].value] else [];
      assert (s + t)[0] == s[0] && (s + t)[1..] == s[1..] + t;
      DataBytesAppend(s[1..], t);
      calc {
        DataBytes(s + t);
        head + DataBytes(s[1..] + t);
        head + (DataBytes(s[1..]) + DataBytes(t));
        (head + DataBytes(s[1..])) + DataBytes(t);
      }
    }
  }

  /** A command byte followed by data: one opcode, and the data in order. */
  lemma CommandWithData(c: bv8, data: seq<bv8>)
    ensures Opcodes([Cmd(c)] + Dats(data)) == [c]
    ensures DataBytes([Cmd(c)] + Dats(data)) == data
  {
    OpcodesAppend([Cmd(c)], Dats(data));
    OpcodesOfDats(data);
    DataBytesAppend([Cmd(c)], Dats(data));
    DataBytesOfDats(data);
  }

  lemma {:induction false} DataBytesOfDats(s: seq<bv8>)
    ensures DataBytes(Dats(s)) == s
  {
    if s != [] {
      DataBytesOfDats(s[1..]);
      assert s == [s[0]] + s[1..];
    }
  }

  /** Data bytes carry no opcode. */
  lemma {:induction false} OpcodesOfDats(s: seq<bv8>)
    ensures Opcodes(Dats(s)) == []
  {
    if s != [] {
      OpcodesOfDats(s[1..]);
    }
  }

  /** The payload of a concatenation is the payload of each part, the second
      part starting in the state the first part leaves. */
  lemma {:induction false} PayloadAppend(s: seq<Signal>, t: seq<Signal>, op: bv8, active: bool)
    ensures Payload(s + t, op, active) == Payload(s, op, active) + Payload(t, op, ActiveAfter(s, op, active))
    ensures ActiveAfter(s + t, op, active) == ActiveAfter(t, op, ActiveAfter(s, op, active))
  {
    if s == [] {
      assert s + t == t;
    } else {
      assert (s + t)[1..] == s[1..] + t;
      match s[0]
      case Cmd(c) =>
        PayloadAppend(s[1..], t, op, c == op);
      case Dat(b) =>
        PayloadAppend(s[1..], t, op, active);
    }
  }

  /** A run of data bytes is received in full while `op` is current, and not
      at all otherwise; it does not change the current command. */
  lemma {:induction false} PayloadOfDats(s: seq<bv8>, op: bv8, active: bool)
    ensures Payload(Dats(s), op, active) == (if active then s else [])
    ensures ActiveAfter(Dats(s), op, active) == active
  {
    if s != [] {
      PayloadOfDats(s[1..], op, active);
      assert s == [s[0]] + s[1..];
    }
  }

  /** A command byte followed by data: the data is received for `op` exactly
      when the command is `op`, whatever was current before. */
  lemma PayloadOfCommand(c: bv8, data: seq<bv8>, op: bv8, active: bool)
    ensures Payload([Cmd(c)] + Dats(data), op, active) == (if c == op then data else [])
    ensures ActiveAfter([Cmd(c)] + Dats(data), op, active) == (c == op)
  {
    PayloadAppend([Cmd(c)], Dats(data), op, active);
    PayloadOfDats(data, op, c == op);
  }

  /** PayloadAppend for traces of events. */
  lemma TracePayloadAppend(t: seq<Event>, u: seq<Event>, op: bv8, active: bool)
    ensures Payload(Bytes(t + u), op, active)
         == Payload(Bytes(t), op, active) + Payload(Bytes(u), op, ActiveAfter(Bytes(t), op, active))
    ensures ActiveAfter(Bytes(t + u), op, active) == ActiveAfter(Bytes(u), op, ActiveAfter(Bytes(t), op, active))
  {
    BytesAppend(t, u);
    PayloadAppend(Bytes(t), Bytes(u), op, active);
  }

  /** A payload sent between two stretches that deliver nothing to `op`:
      the first ends with another command current, the middle one ends with
      `op` current. */
  lemma PayloadBetween(a: seq<Event>, b: seq<Event>, c: seq<Event>, op: bv8, active: bool, data: seq<bv8>)
    requires |Payload(Bytes(a), op, active)| == 0 && !ActiveAfter(Bytes(a), op, active)
    requires Payload(Bytes(b), op, false) == data && ActiveAfter(Bytes(b), op, false)
    requires |Payload(Bytes(c), op, true)| == 0
    ensures Payload(Bytes(a + b + c), op, active) == data
  {
    TracePayloadAppend(a, b, op, active);
    TracePayloadAppend(a + b, c, op, active);
  }

  // Proof helpers: the regroupings below re-associate concatenated traces
  // so the method proofs stay cheap; they model nothing of the drivers.

  lemma AppendAssoc(a: seq<Event>, b: seq<Event>, c: seq<Event>)
    ensures (a + b) + c == a + (b + c)
  {
  }

  /** Events appended one at a time after `p` form one run after `p`
      (proof helper). */
  lemma Snoc2(p: seq<Event>, e1: Event, e2: Event)
    ensures p + [e1] + [e2] == p + [e1, e2]
  {
    AppendAssoc(p, [e1], [e2]);
    assert [e1] + [e2] == [e1, e2];
  }

  lemma Snoc3(p: seq<Event>, e1: Event, e2: Event, e3: Event)
    ensures p + [e1] + [e2] + [e3] == p + [e1, e2, e3]
  {
    Snoc2(p, e1, e2);
    AppendAssoc(p, [e1, e2], [e3]);
    assert [e1, e2] + [e3] == [e1, e2, e3];
  }

  lemma Snoc4(p: seq<Event>, e1: Event, e2: Event, e3: Event, e4: Event)
    ensures p + [e1] + [e2] + [e3] + [e4] == p + [e1, e2, e3, e4]
  {
    Snoc3(p, e1, e2, e3);
    AppendAssoc(p, [e1, e2, e3], [e4]);
    assert [e1, e2, e3] + [e4] == [e1, e2, e3, e4];
  }

  lemma Snoc5(p: seq<Event>, e1: Event, e2: Event, e3: Event, e4: Event, e5: Event)
    ensures p + [e1] + [e2] + [e3] + [e4] + [e5] == p + [e1, e2, e3, e4, e5]
  {
    Snoc4(p, e1, e2, e3, e4);
    AppendAssoc(p, [e1, e2, e3, e4], [e5]);
    assert [e1, e2, e3, e4] + [e5] == [e1, e2, e3, e4, e5];
  }

  /** Opcodes and data bytes of a concatenation of traces. */
  lemma TraceContentAppend(t: seq<Event>, u: seq<Event>)
    ensures Opcodes(Bytes(t + u)) == Opcodes(Bytes(t)) + Opcodes(Bytes(u))
    ensures DataBytes(Bytes(t + u)) == DataBytes(Bytes(t)) + DataBytes(Bytes(u))
  {
    BytesAppend(t, u);
    OpcodesAppend(Bytes(t), Bytes(u));
    DataBytesAppend(Bytes(t), Bytes(u));
  }

  /** Adjacent slices join. */
  lemma PrefixJoin(s: seq<bv8>, lo: nat, hi: nat)
    requires lo <= hi <= |s|
    ensures s[..lo] + s[lo..hi] == s[..hi]
  {
  }

  /** A stretch delivering `buf[lo..hi]` to `op`, and leaving it current,
      after one that delivered `buf[..lo]`. */
  lemma StreamSnoc(t: seq<Event>, u: seq<Event>, op: bv8, buf: seq<bv8>, lo: nat, hi: nat, active: bool, mid: bool)
    requires lo <= hi <= |buf|
    requires Payload(Bytes(t), op, active) == buf[..lo] && ActiveAfter(Bytes(t), op, active) == mid
    requires Payload(Bytes(u), op, mid) == buf[lo..hi] && ActiveAfter(Bytes(u), op, mid)
    ensures Payload(Bytes(t + u), op, active) == buf[..hi]
    ensures ActiveAfter(Bytes(t + u), op, active)
  {
    TracePayloadAppend(t, u, op, active);
    PrefixJoin(buf, lo, hi);
  }
}
