/** The HELLO header and its wire format (model/aodv-packet.cc). */
module HelloHeaders {
  import opened Types
  import opened Buffers

  const HEADER_SIZE := 23
  // What is reserved for an entry of the backbone neighbour list; twelve bytes of it are written.
  const ENTRY_SIZE := 24

  // ---------- enumerations on the wire ----------

  function StatusByte(s: NodeStatus): U8 {
    match s case RnNode => 1 case Core => 2 case NeighNode => 3
  }

  function StatusOf(b: nat): Option<NodeStatus> {
    if b == 1 then Some(RnNode) else if b == 2 then Some(Core) else if b == 3 then Some(NeighNode) else None
  }

  function IndicatorByte(i: Indicator): U8 {
    match i case ConvertBreak => 0 case ConvertAllow => 1 case ConvertOther => 2
  }

  function IndicatorOf(b: nat): Option<Indicator> {
    if b == 0 then Some(ConvertBreak)
    else if b == 1 then Some(ConvertAllow)
    else if b == 2 then Some(ConvertOther)
    else None
  }

  function WeightFunctionCode(w: WeightFunction): U16 {
    match w case NodeDegree => 1 case NodeIp => 2 case NodeRandom => 3 case NodeBnDegree => 4
  }

  function WeightFunctionOf(b: nat): Option<WeightFunction> {
    if b == 1 then Some(NodeDegree) else if b == 2 then Some(NodeIp)
    else if b == 3 then Some(NodeRandom) else if b == 4 then Some(NodeBnDegree) else None
  }

  // ---------- the constructor ----------

  // m_listSize: the size of the list cut to eight bits; a regular node carries none.
  function ListSize(status: NodeStatus, tset: seq<TwoHop>): U8 {
    if status == RnNode then 0 else |tset| % 0x100
  }

  function MadeList(status: NodeStatus, tset: seq<TwoHop>): seq<TwoHop> {
    if ListSize(status, tset) == 0 then [] else tset
  }

  function MessageLength(n: U8): U16 {
    HEADER_SIZE + ENTRY_SIZE * n as nat
  }

  function SerializedSize(n: U8): nat {
    HEADER_SIZE + ENTRY_SIZE * n as nat
  }

  // ---------- the wire format ----------

  ghost function EntryBytes(e: TwoHop): (r: Bytes)
    ensures |r| == 12
  {
    U32Bytes(e.addr) + U32Bytes(e.weight) + U32Bytes(IndicatorByte(e.indicator))
  }

  ghost function ListBytes(bn: seq<TwoHop>): (r: Bytes)
    ensures |r| == 12 * |bn|
  {
    if bn == [] then [] else EntryBytes(bn[0]) + ListBytes(bn[1..])
  }

  ghost function FixedBytes(h: Hello, n: U8): (r: Bytes)
    ensures |r| == HEADER_SIZE
  {
    [StatusByte(h.status), IndicatorByte(h.indicator), n] + U16Bytes(MessageLength(n)) + U16Bytes(h.sequenceNumber)
    + U32Bytes(h.origin) + U32Bytes(h.associated) + U16Bytes(4) + U16Bytes(WeightFunctionCode(h.weightFunction))
    + U32Bytes(h.weight)
  }

  ghost function HelloBytes(h: Hello, n: U8): Bytes {
    FixedBytes(h, n) + if n > 0 then ListBytes(h.bnNeighbors) else []
  }

  // An entry as read, stamped with the reading time.
  function EntryAt(b: Bytes, at: nat, stamp: Time): Option<TwoHop>
    requires at + 12 <= |b|
  {
    match IndicatorOf(U32At(b, at + 8))
    case Some(i) => Some(TwoHop(U32At(b, at), U32At(b, at + 4), i, stamp))
    case None => None
  }

  function ListAt(b: Bytes, at: nat, n: nat, stamp: Time): (r: Option<seq<TwoHop>>)
    requires at + 12 * n <= |b|
    ensures r.Some? ==> |r.value| == n
    decreases n
  {
    if n == 0 then Some([]) else
      match EntryAt(b, at, stamp)
      case None => None
      case Some(e) =>
        match ListAt(b, at + 12, n - 1, stamp)
        case None => None
        case Some(rest) => Some([e] + rest)
  }

  // The list length announced by the message length field, computed in 32 bits.
  function AnnouncedSize(messageLength: U16): nat {
    (messageLength as int - HEADER_SIZE) % 0x1_0000_0000
  }

  datatype Decoded = Decoded(hello: Hello, size: nat)

  // None where the buffer is too short, an internal assertion fails, or an enumerator is unknown.
  function HelloAt(b: Bytes, at: nat, stamp: Time): Option<Decoded> {
    if at + HEADER_SIZE > |b| || at + HEADER_SIZE + 12 * b[at + 2] as nat > |b| then None else
      var n := b[at + 2];
      var announced := AnnouncedSize(U16At(b, at + 3));
      var status, indicator := StatusOf(b[at]), IndicatorOf(b[at + 1]);
      var weightFunction := WeightFunctionOf(U16At(b, at + 17));
      var list := ListAt(b, at + HEADER_SIZE, n, stamp);
      if announced % ENTRY_SIZE != 0 || announced / ENTRY_SIZE != n as nat then None
      else if status.None? || indicator.None? || weightFunction.None? || list.None? then None
      else Some(Decoded(Hello(U16At(b, at + 5), status.value, indicator.value, U32At(b, at + 7), U32At(b, at + 11),
                              weightFunction.value, U32At(b, at + 19), list.value),
                        SerializedSize(n)))
  }

  // ---------- round trip ----------

  lemma EntryRoundTrip(pre: Bytes, e: TwoHop, post: Bytes, stamp: Time)
    ensures EntryAt(pre + EntryBytes(e) + post, |pre|, stamp) == Some(e.(timeout := stamp))
  {
    hide U32Bytes, U32At;
    var i: U32 := IndicatorByte(e.indicator);
    var a, w, c := U32Bytes(e.addr), U32Bytes(e.weight), U32Bytes(i);
    var b := pre + EntryBytes(e) + post;
    assert b == pre + a + (w + c + post);
    U32RoundTrip(pre, e.addr, w + c + post);
    assert b == (pre + a) + w + (c + post);
    U32RoundTrip(pre + a, e.weight, c + post);
    assert b == (pre + a + w) + c + post;
    U32RoundTrip(pre + a + w, i, post);
  }

  // Reading n entries of a written list, n not above its length, gives its first n entries.
  lemma {:induction false} ListRoundTrip(pre: Bytes, bn: seq<TwoHop>, n: nat, post: Bytes, stamp: Time)
    requires n <= |bn|
    ensures ListAt(pre + ListBytes(bn) + post, |pre|, n, stamp) == Some(Stamped(bn[..n], stamp))
    decreases n
  {
    hide EntryBytes, EntryAt;
    if n > 0 {
      var b := pre + ListBytes(bn) + post;
      var first, rest := EntryBytes(bn[0]), ListBytes(bn[1..]);
      assert b == pre + first + (rest + post);
      EntryRoundTrip(pre, bn[0], rest + post, stamp);
      assert b == (pre + first) + rest + post;
      ListRoundTrip(pre + first, bn[1..], n - 1, post, stamp);
      assert bn[1..][..n - 1] == bn[..n][1..];
    }
  }

  ghost predicate FixedFieldsAt(b: Bytes, at: nat, h: Hello, n: U8) {
    && at + HEADER_SIZE <= |b|
    && b[at] == StatusByte(h.status) && b[at + 1] == IndicatorByte(h.indicator) && b[at + 2] == n
    && U16At(b, at + 3) == MessageLength(n) && U16At(b, at + 5) == h.sequenceNumber
    && U32At(b, at + 7) == h.origin && U32At(b, at + 11) == h.associated
    && U16At(b, at + 15) == 4
    && U16At(b, at + 17) == WeightFunctionCode(h.weightFunction) && U32At(b, at + 19) == h.weight
  }

  lemma FixedRoundTrip(pre: Bytes, h: Hello, n: U8, post: Bytes)
    ensures FixedFieldsAt(pre + FixedBytes(h, n) + post, |pre|, h, n)
  {
    hide U16Bytes, U32Bytes, U16At, U32At, MessageLength, WeightFunctionCode;
    var f0 := [StatusByte(h.status), IndicatorByte(h.indicator), n];
    var f1, f2 := U16Bytes(MessageLength(n)), U16Bytes(h.sequenceNumber);
    var f3, f4 := U32Bytes(h.origin), U32Bytes(h.associated);
    var f5, f6, f7 := U16Bytes(4), U16Bytes(WeightFunctionCode(h.weightFunction)), U32Bytes(h.weight);
    var b := pre + FixedBytes(h, n) + post;
    var p1 := pre + f0;
    assert b == p1 + f1 + (f2 + f3 + f4 + f5 + f6 + f7 + post);
    U16RoundTrip(p1, MessageLength(n), f2 + f3 + f4 + f5 + f6 + f7 + post);
    var p2 := p1 + f1;
    assert b == p2 + f2 + (f3 + f4 + f5 + f6 + f7 + post);
    U16RoundTrip(p2, h.sequenceNumber, f3 + f4 + f5 + f6 + f7 + post);
    var p3 := p2 + f2;
    assert b == p3 + f3 + (f4 + f5 + f6 + f7 + post);
    U32RoundTrip(p3, h.origin, f4 + f5 + f6 + f7 + post);
    var p4 := p3 + f3;
    assert b == p4 + f4 + (f5 + f6 + f7 + post);
    U32RoundTrip(p4, h.associated, f5 + f6 + f7 + post);
    assert b == (p4 + f4) + f5 + (f6 + f7 + post);
    U16RoundTrip(p4 + f4, 4, f6 + f7 + post);
    var p6 := p4 + f4 + f5;
    assert b == p6 + f6 + (f7 + post);
    U16RoundTrip(p6, WeightFunctionCode(h.weightFunction), f7 + post);
    var p7 := p6 + f6;
    assert b == p7 + f7 + post;
    U32RoundTrip(p7, h.weight, post);
  }

  // The header a node makes of its state and its backbone neighbours.
  function Made(h: Hello): Hello {
    h.(bnNeighbors := MadeList(h.status, h.bnNeighbors))
  }

  // The space a header reserves holds its list exactly when the list is left out, has at most 255 entries,
  // or has a number of entries that its eight-bit length takes for none.
  lemma ReservedSizeCoversList(h: Hello)
    ensures HEADER_SIZE + 12 * |Made(h).bnNeighbors| <= SerializedSize(ListSize(h.status, h.bnNeighbors)) <==>
            h.status == RnNode || |h.bnNeighbors| <= 255 || |h.bnNeighbors| % 0x100 == 0
  {
  }

  lemma HelloAtFrom(b: Bytes, at: nat, h: Hello, n: U8, list: seq<TwoHop>, stamp: Time)
    requires FixedFieldsAt(b, at, h, n) && at + HEADER_SIZE + 12 * n as nat <= |b|
    requires ListAt(b, at + HEADER_SIZE, n, stamp) == Some(list)
    ensures HelloAt(b, at, stamp) == Some(Decoded(h.(bnNeighbors := list), SerializedSize(n)))
  {
    hide ListAt, U16At, U32At;
  }

  // What reading back a made header gives, whatever precedes and follows it.
  lemma MadeRoundTrip(pre: Bytes, h: Hello, post: Bytes, stamp: Time)
    ensures var n := ListSize(h.status, h.bnNeighbors);
            var made := Made(h).bnNeighbors;
            && n as nat <= |made|
            && HelloAt(pre + HelloBytes(Made(h), n) + post, |pre|, stamp) ==
               Some(Decoded(h.(bnNeighbors := Stamped(made[..n], stamp)), SerializedSize(n)))
  {
    hide FixedBytes, ListBytes, ListAt, HelloAt, FixedFieldsAt;
    var n := ListSize(h.status, h.bnNeighbors);
    var made := Made(h);
    var bytes := if n > 0 then ListBytes(made.bnNeighbors) else [];
    var b := pre + HelloBytes(made, n) + post;
    assert b == pre + FixedBytes(made, n) + (bytes + post);
    FixedRoundTrip(pre, made, n, bytes + post);
    assert b == (pre + FixedBytes(made, n)) + bytes + post;
    assert n > 0 ==> bytes == ListBytes(made.bnNeighbors);
    if n > 0 {
      ListRoundTrip(pre + FixedBytes(made, n), made.bnNeighbors, n, post, stamp);
    } else {
      NoEntries(b, |pre| + HEADER_SIZE, stamp);
    }
    HelloAtFrom(b, |pre|, made, n, Stamped(made.bnNeighbors[..n], stamp), stamp);
  }

  lemma NoEntries(b: Bytes, at: nat, stamp: Time)
    requires at <= |b|
    ensures ListAt(b, at, 0, stamp) == Some([])
  {
  }

  // A HELLO of a backbone or core node comes back with its whole neighbour list exactly when the list has at
  // most 255 entries; a regular node's comes back with an empty list. Only the entries' timeouts differ.
  lemma HelloRoundTrip(pre: Bytes, h: Hello, post: Bytes, stamp: Time)
    ensures var n := ListSize(h.status, h.bnNeighbors);
            var read := HelloAt(pre + HelloBytes(Made(h), n) + post, |pre|, stamp);
            && read.Some? && read.value.size == SerializedSize(n)
            && (h.status != RnNode ==>
                 (read.value.hello == h.(bnNeighbors := Stamped(h.bnNeighbors, stamp)) <==> |h.bnNeighbors| <= 255))
            && (h.status == RnNode ==> read.value.hello == h.(bnNeighbors := []))
  {
    hide HelloAt, HelloBytes;
    MadeRoundTrip(pre, h, post, stamp);
    var n := ListSize(h.status, h.bnNeighbors);
    var made := Made(h).bnNeighbors;
    assert |Stamped(made[..n], stamp)| == n as nat;
    if |h.bnNeighbors| <= 255 && h.status != RnNode {
      assert made[..n] == h.bnNeighbors;
    }
  }

  // A header of at most 255 entries written over a buffer is read back from the same place; the reserved
  // size is more than the list needs, and the rest of it is never looked at.
  lemma HelloReadsBack(b: Bytes, at: nat, h: Hello, stamp: Time)
    requires h.status != RnNode && |h.bnNeighbors| <= 255
    requires at + SerializedSize(ListSize(h.status, h.bnNeighbors)) <= |b|
    ensures var n := ListSize(h.status, h.bnNeighbors);
            && at + |HelloBytes(Made(h), n)| <= |b|
            && HelloAt(Overwritten(b, at, HelloBytes(Made(h), n)), at, stamp) ==
               Some(Decoded(h.(bnNeighbors := Stamped(h.bnNeighbors, stamp)), SerializedSize(n)))
  {
    hide HelloAt, FixedBytes, ListBytes;
    var n := ListSize(h.status, h.bnNeighbors);
    var w := HelloBytes(Made(h), n);
    assert |w| == HEADER_SIZE + 12 * n as nat;
    HelloRoundTrip(b[..at], h, b[at + |w|..], stamp);
  }

  // ---------- the header ----------

  class HelloHeader {
    var hello: Hello
    var listSize: U8
    var messageLength: U16

    constructor (h: Hello)
      ensures hello == Made(h) && listSize == ListSize(h.status, h.bnNeighbors)
      ensures messageLength == (HEADER_SIZE + ENTRY_SIZE * if h.status == RnNode then 0 else |h.bnNeighbors|) % 0x1_0000
    {
      messageLength := (HEADER_SIZE + ENTRY_SIZE * (if h.status == RnNode then 0 else |h.bnNeighbors|)) % 0x1_0000;
      listSize := if h.status == RnNode then 0 else |h.bnNeighbors| % 0x100;
      hello := h;
      new;
      if listSize == 0 {
        hello := hello.(bnNeighbors := []);
      }
    }

    // Each entry uses half of what is reserved for it; ReservedSizeCoversList says when that is enough.
    method Serialize(start: BufferIterator)
      requires start.cur + HEADER_SIZE + 12 * |hello.bnNeighbors| <= start.data.Length
      modifies start.data
      ensures start.data[..] == Overwritten(old(start.data[..]), start.cur, HelloBytes(hello, listSize))
    {
      var i := new BufferIterator(start.data, start.cur);
      SerializeFixed(i);
      if listSize > 0 {
        SerializeList(i);
      }
      assert i.written == HelloBytes(hello, listSize);
    }

    method SerializeFixed(i: BufferIterator)
      requires i.Writing() && i.cur + HEADER_SIZE <= i.data.Length
      modifies i`cur, i`written, i.data
      ensures i.Writing() && i.written == old(i.written) + FixedBytes(hello, listSize)
    {
      hide U16Bytes, U32Bytes, Overwritten;
      i.WriteU8(StatusByte(hello.status));
      i.WriteU8(IndicatorByte(hello.indicator));
      i.WriteU8(listSize);
      SerializeNumbers(i);
      assert old(i.written) + [StatusByte(hello.status)] + [IndicatorByte(hello.indicator)] + [listSize] ==
             old(i.written) + [StatusByte(hello.status), IndicatorByte(hello.indicator), listSize];
    }

    method SerializeNumbers(i: BufferIterator)
      requires i.Writing() && i.cur + 20 <= i.data.Length
      modifies i`cur, i`written, i.data
      ensures i.Writing()
      ensures i.written == old(i.written) + U16Bytes(MessageLength(listSize)) + U16Bytes(hello.sequenceNumber)
              + U32Bytes(hello.origin) + U32Bytes(hello.associated) + U16Bytes(4)
              + U16Bytes(WeightFunctionCode(hello.weightFunction)) + U32Bytes(hello.weight)
    {
      hide U16Bytes, U32Bytes, Overwritten;
      i.WriteHtonU16(HEADER_SIZE + listSize as nat * ENTRY_SIZE);
      i.WriteHtonU16(hello.sequenceNumber);
      i.WriteHtonU32(hello.origin);
      i.WriteHtonU32(hello.associated);
      i.WriteHtonU16(4);
      i.WriteHtonU16(WeightFunctionCode(hello.weightFunction));
      i.WriteHtonU32(hello.weight);
    }

    // The loop of Serialize.
    method SerializeList(i: BufferIterator)
      requires i.Writing() && i.cur + 12 * |hello.bnNeighbors| <= i.data.Length
      modifies i`cur, i`written, i.data
      ensures i.Writing() && i.written == old(i.written) + ListBytes(hello.bnNeighbors)
    {
      hide U32Bytes, Overwritten;
      var k := 0;
      while k < |hello.bnNeighbors|
        invariant 0 <= k <= |hello.bnNeighbors|
        invariant i.Writing() && i.cur + 12 * (|hello.bnNeighbors| - k) <= i.data.Length
        invariant i.written + ListBytes(hello.bnNeighbors[k..]) == old(i.written) + ListBytes(hello.bnNeighbors)
      {
        var e := hello.bnNeighbors[k];
        ghost var before, rest := i.written, ListBytes(hello.bnNeighbors[k + 1..]);
        assert hello.bnNeighbors[k..][1..] == hello.bnNeighbors[k + 1..];
        WriteEntry(i, e);
        assert before + (EntryBytes(e) + rest) == i.written + rest;
        k := k + 1;
      }
    }

    // None where the buffer is too short, an internal assertion fails, or an enumerator is unknown.
    method Deserialize(start: BufferIterator, stamp: Time) returns (size: Option<nat>)
      requires start.cur <= start.data.Length
      modifies this
      ensures match HelloAt(start.data[..], start.cur, stamp)
              case None => size == None
              case Some(d) => size == Some(d.size) && hello == d.hello && listSize == start.data[start.cur + 2]
    {
      hide U16At, U32At, ListAt;
      var i := new BufferIterator(start.data, start.cur);
      if start.data.Length - i.cur < HEADER_SIZE {
        return None;
      }
      var enums: bool, h: Hello := ReadFixed(i);
      if start.data.Length - i.cur < 12 * listSize as nat {
        return None;
      }
      var messageSize := (messageLength as int - HEADER_SIZE) % 0x1_0000_0000;
      if messageSize % ENTRY_SIZE != 0 {
        return None;
      }
      var numBnNeighbors := messageSize / ENTRY_SIZE;
      var list := ReadList(i, stamp);
      if listSize as nat != numBnNeighbors || !enums || list.None? {
        return None;
      }
      hello := h.(bnNeighbors := list.value);
      return Some(HEADER_SIZE + ENTRY_SIZE * listSize as nat);
    }

    // The fixed fields; enums tells whether the three enumerations hold known values.
    method ReadFixed(i: BufferIterator) returns (enums: bool, h: Hello)
      requires i.cur + HEADER_SIZE <= i.data.Length
      modifies this`listSize, this`messageLength, i`cur
      ensures i.cur == old(i.cur) + HEADER_SIZE
      ensures var b, at := i.data[..], old(i.cur);
              var status, indicator, wf := StatusOf(b[at]), IndicatorOf(b[at + 1]), WeightFunctionOf(U16At(b, at + 17));
              && listSize == b[at + 2] && messageLength == U16At(b, at + 3)
              && (enums <==> status.Some? && indicator.Some? && wf.Some?)
              && (enums ==> h == Hello(U16At(b, at + 5), status.value, indicator.value, U32At(b, at + 7),
                                       U32At(b, at + 11), wf.value, U32At(b, at + 19), []))
    {
      hide U16At, U32At;
      var status := i.ReadU8();
      var indicator := i.ReadU8();
      listSize := i.ReadU8();
      messageLength := i.ReadNtohU16();
      var sequenceNumber := i.ReadNtohU16();
      var origin := i.ReadNtohU32();
      var associated := i.ReadNtohU32();
      var weightSize := i.ReadNtohU16();
      var weightFunction := i.ReadNtohU16();
      var weight := i.ReadNtohU32();
      var s, d, w := StatusOf(status), IndicatorOf(indicator), WeightFunctionOf(weightFunction);
      enums := s.Some? && d.Some? && w.Some?;
      h := Hello(sequenceNumber, s.GetOr(RnNode), d.GetOr(ConvertOther), origin, associated, w.GetOr(NodeDegree),
                 weight, []);
    }

    // The loop of Deserialize.
    method ReadList(i: BufferIterator, stamp: Time) returns (list: Option<seq<TwoHop>>)
      requires i.cur + 12 * listSize as nat <= i.data.Length
      modifies i`cur
      ensures list == ListAt(i.data[..], old(i.cur), listSize, stamp)
    {
      hide U32At;
      var read: seq<TwoHop> := [];
      var known := true;
      var n: nat := 0;
      PrefixedNothing(ListAt(i.data[..], i.cur, listSize, stamp));
      while n < listSize
        invariant n <= listSize
        invariant i.cur == old(i.cur) + 12 * n
        invariant known ==> ListAt(i.data[..], old(i.cur), listSize, stamp) ==
                            Prefixed(read, ListAt(i.data[..], i.cur, listSize - n, stamp))
        invariant !known ==> ListAt(i.data[..], old(i.cur), listSize, stamp) == None
      {
        PrefixedStep(read, i.data[..], i.cur, listSize - n, stamp);
        var address := i.ReadNtohU32();
        var weight := i.ReadNtohU32();
        var ind := i.ReadNtohU32();
        var indicator := IndicatorOf(ind);
        if known && indicator.Some? {
          read := read + [TwoHop(address, weight, indicator.value, stamp)];
        } else {
          known := false;
        }
        n := n + 1;
      }
      NoEntries(i.data[..], i.cur, stamp);
      assert read + [] == read;
      list := if known then Some(read) else None;
    }
  }

  ghost function Prefixed(read: seq<TwoHop>, rest: Option<seq<TwoHop>>): Option<seq<TwoHop>> {
    match rest
    case None => None
    case Some(r) => Some(read + r)
  }

  lemma PrefixedNothing(rest: Option<seq<TwoHop>>)
    ensures Prefixed([], rest) == rest
  {
    if rest.Some? {
      assert [] + rest.value == rest.value;
    }
  }

  lemma PrefixedStep(read: seq<TwoHop>, b: Bytes, at: nat, n: nat, stamp: Time)
    requires at + 12 * n <= |b| && n > 0
    ensures Prefixed(read, ListAt(b, at, n, stamp)) ==
            match EntryAt(b, at, stamp)
            case None => None
            case Some(e) => Prefixed(read + [e], ListAt(b, at + 12, n - 1, stamp))
  {
    if EntryAt(b, at, stamp).Some? && ListAt(b, at + 12, n - 1, stamp).Some? {
      var e, rest := EntryAt(b, at, stamp).value, ListAt(b, at + 12, n - 1, stamp).value;
      assert read + ([e] + rest) == (read + [e]) + rest;
    }
  }

  method WriteEntry(i: BufferIterator, e: TwoHop)
    requires i.Writing() && i.cur + 12 <= i.data.Length
    modifies i`cur, i`written, i.data
    ensures i.Writing() && i.written == old(i.written) + EntryBytes(e)
  {
    hide U32Bytes, Overwritten;
    i.WriteHtonU32(e.addr);
    i.WriteHtonU32(e.weight);
    i.WriteHtonU32(IndicatorByte(e.indicator));
  }
}
