/** Where the fields of the HELLO and RERR headers lie on the wire, byte by byte. */
module WireLayouts {
  import opened Types
  import opened Lists
  import opened Buffers
  import opened HelloHeaders
  import opened RerrHeaders

  // Network byte order.
  function Number16(b: Bytes, i: nat): nat
    requires i + 2 <= |b|
  {
    b[i] as nat * 0x100 + b[i + 1] as nat
  }

  function Number32(b: Bytes, i: nat): nat
    requires i + 4 <= |b|
  {
    b[i] as nat * 0x100_0000 + b[i + 1] as nat * 0x1_0000 + b[i + 2] as nat * 0x100 + b[i + 3] as nat
  }

  lemma NumbersRead(b: Bytes, i: nat)
    ensures i + 2 <= |b| ==> U16At(b, i) as nat == Number16(b, i)
    ensures i + 4 <= |b| ==> U32At(b, i) as nat == Number32(b, i)
  {
  }

  // ---------- HELLO ----------

  // The values of the enumerations are those of the declarations in the source.
  ghost predicate EnumsOnWire(b: Bytes, h: Hello)
    requires |b| >= 23
  {
    && (h.status == RnNode ==> b[0] == 1) && (h.status == Core ==> b[0] == 2) && (h.status == NeighNode ==> b[0] == 3)
    && IndicatorIs(h.indicator, b[1] as nat)
    && (h.weightFunction == NodeDegree ==> Number16(b, 17) == 1) && (h.weightFunction == NodeIp ==>
         Number16(b, 17) == 2)
    && (h.weightFunction == NodeRandom ==> Number16(b, 17) == 3)
    && (h.weightFunction == NodeBnDegree ==> Number16(b, 17) == 4)
  }

  ghost predicate IndicatorIs(i: Indicator, n: nat) {
    (i == ConvertBreak ==> n == 0) && (i == ConvertAllow ==> n == 1) && (i == ConvertOther ==> n == 2)
  }

  // The fixed part: status, indicator, list length, message length, sequence number, originator, associate, the size of
  // the weight, weight function and weight, at these offsets.
  lemma HelloLayout(h: Hello, n: U8)
    ensures var b := HelloBytes(h, n);
            && |b| == (if n == 0 then 23 else 23 + 12 * |h.bnNeighbors|)
            && EnumsOnWire(b, h)
            && b[2] == n && Number16(b, 3) == 23 + 24 * n as nat && Number16(b, 5) == h.sequenceNumber as nat
            && Number32(b, 7) == h.origin as nat && Number32(b, 11) == h.associated as nat
            && Number16(b, 15) == 4 && Number32(b, 19) == h.weight as nat
  {
    hide FixedBytes, ListBytes, U16At, U32At, Number16, Number32;
    var list := if n > 0 then ListBytes(h.bnNeighbors) else [];
    var b := HelloBytes(h, n);
    assert b == [] + FixedBytes(h, n) + list;
    FixedRoundTrip([], h, n, list);
    NumbersRead(b, 3);
    NumbersRead(b, 5);
    NumbersRead(b, 7);
    NumbersRead(b, 11);
    NumbersRead(b, 15);
    NumbersRead(b, 17);
    NumbersRead(b, 19);
  }

  lemma EntryLayout(pre: Bytes, e: TwoHop, post: Bytes)
    ensures var b, at := pre + HelloHeaders.EntryBytes(e) + post, |pre|;
            && Number32(b, at) == e.addr as nat && Number32(b, at + 4) == e.weight as nat
            && IndicatorIs(e.indicator, Number32(b, at + 8))
  {
    hide U32Bytes, U32At, Number32;
    var i: U32 := IndicatorByte(e.indicator);
    var a, w, c := U32Bytes(e.addr), U32Bytes(e.weight), U32Bytes(i);
    var b := pre + HelloHeaders.EntryBytes(e) + post;
    assert b == pre + a + (w + c + post);
    U32RoundTrip(pre, e.addr, w + c + post);
    assert b == (pre + a) + w + (c + post);
    U32RoundTrip(pre + a, e.weight, c + post);
    assert b == (pre + a + w) + c + post;
    U32RoundTrip(pre + a + w, i, post);
    NumbersRead(b, |pre|);
    NumbersRead(b, |pre| + 4);
    NumbersRead(b, |pre| + 8);
  }

  lemma {:induction false} ListLayout(pre: Bytes, bn: seq<TwoHop>, k: nat)
    requires k < |bn|
    ensures var b, at := pre + ListBytes(bn), |pre| + 12 * k;
            && Number32(b, at) == bn[k].addr as nat && Number32(b, at + 4) == bn[k].weight as nat
            && IndicatorIs(bn[k].indicator, Number32(b, at + 8))
    decreases k
  {
    hide HelloHeaders.EntryBytes, Number32;
    var first, rest := HelloHeaders.EntryBytes(bn[0]), ListBytes(bn[1..]);
    assert pre + ListBytes(bn) == pre + first + rest;
    if k == 0 {
      EntryLayout(pre, bn[0], rest);
    } else {
      ListLayout(pre + first, bn[1..], k - 1);
    }
  }

  // The entries of the list follow, twelve bytes each: address, weight and indicator.
  lemma HelloEntryLayout(h: Hello, n: U8, k: nat)
    requires n > 0 && k < |h.bnNeighbors|
    ensures var b, at := HelloBytes(h, n), 23 + 12 * k;
            && Number32(b, at) == h.bnNeighbors[k].addr as nat && Number32(b, at + 4) == h.bnNeighbors[k].weight as nat
            && IndicatorIs(h.bnNeighbors[k].indicator, Number32(b, at + 8))
  {
    hide Number32, FixedBytes, ListBytes;
    ListLayout(FixedBytes(h, n), h.bnNeighbors, k);
  }

  // ---------- RERR ----------

  lemma {:induction false} EntriesLayout(pre: Bytes, m: Unreachable, ks: seq<Address>, k: nat)
    requires k < |ks| && forall d :: d in ks ==> d in m
    ensures var b, at := pre + RerrHeaders.EntryBytes(m, ks), |pre| + 8 * k;
            Number32(b, at) == ks[k] as nat && Number32(b, at + 4) == m[ks[k]] as nat
    decreases k
  {
    hide U32Bytes, U32At, Number32;
    var first, rest := U32Bytes(ks[0]) + U32Bytes(m[ks[0]]), RerrHeaders.EntryBytes(m, ks[1..]);
    assert pre + RerrHeaders.EntryBytes(m, ks) == pre + first + rest;
    if k == 0 {
      assert pre + first + rest == pre + U32Bytes(ks[0]) + U32Bytes(m[ks[0]]) + rest;
      RerrHeaders.EntryRoundTrip(pre, ks[0], m[ks[0]], rest);
      NumbersRead(pre + first + rest, |pre|);
      NumbersRead(pre + first + rest, |pre| + 4);
    } else {
      EntriesLayout(pre + first, m, ks[1..], k - 1);
    }
  }

  // Flag, reserved byte and count; then each destination and its number.
  lemma RerrLayout(flag: U8, reserved: U8, m: Unreachable)
    requires |m| <= MAX_DESTINATIONS
    ensures var b := RerrBytes(flag, reserved, m);
            |b| == 3 + 8 * |m| && b[0] == flag && b[1] == reserved && b[2] as nat == |m|
  {
    hide RerrHeaders.EntryBytes, Ascending;
    assert |m.Keys| == |m|;
  }

  // The destinations come in increasing order, eight bytes each with the number.
  lemma RerrEntryLayout(flag: U8, reserved: U8, m: Unreachable, k: nat)
    requires |m| <= MAX_DESTINATIONS && k < |m|
    ensures var b, ks := RerrBytes(flag, reserved, m), Ascending(m.Keys);
            && |b| == 3 + 8 * |m| && |ks| == |m| && ks[k] in m && (k > 0 ==> ks[k - 1] < ks[k])
            && Number32(b, 3 + 8 * k) == ks[k] as nat && Number32(b, 7 + 8 * k) == m[ks[k]] as nat
  {
    hide Number32, RerrHeaders.EntryBytes, Ascending;
    var ks := Ascending(m.Keys);
    assert |m.Keys| == |m|;
    AscendingIncreases(m.Keys);
    assert ks[k] in ks;
    EntriesLayout([flag, reserved, DestCount(m)], m, ks, k);
  }
}
