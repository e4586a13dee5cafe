/** The RERR header: its destination map and its wire format (model/aodv-packet.cc). */
module RerrHeaders {
  import opened Types
  import opened Buffers
  import opened Lists

  type Unreachable = map<Address, U32>

  const MAX_DESTINATIONS := 255

  // GetDestCount: the size of the map, cut to eight bits.
  function DestCount(m: Unreachable): U8 {
    |m| % 0x100
  }

  function SerializedSize(m: Unreachable): nat {
    3 + 8 * DestCount(m) as nat
  }

  // ---------- the wire format ----------

  ghost function EntryBytes(m: Unreachable, ks: seq<Address>): (r: Bytes)
    requires forall k :: k in ks ==> k in m
    ensures |r| == 8 * |ks|
  {
    if ks == [] then [] else U32Bytes(ks[0]) + U32Bytes(m[ks[0]]) + EntryBytes(m, ks[1..])
  }

  ghost function RerrBytes(flag: U8, reserved: U8, m: Unreachable): Bytes {
    [flag, reserved, DestCount(m)] + EntryBytes(m, Ascending(m.Keys))
  }

  // std::map::insert: the first entry of a key wins.
  function Inserted(m: Unreachable, k: Address, v: U32): Unreachable {
    if k in m then m else m[k := v]
  }

  function EntriesAt(b: Bytes, at: nat, n: nat, m: Unreachable): Unreachable
    requires at + 8 * n <= |b|
    decreases n
  {
    if n == 0 then m else EntriesAt(b, at + 8, n - 1, Inserted(m, U32At(b, at), U32At(b, at + 4)))
  }

  datatype Decoded = Decoded(flag: U8, reserved: U8, unreachable: Unreachable, size: nat)

  // None where the buffer is too short or the closing size assertion fails.
  function RerrAt(b: Bytes, at: nat): Option<Decoded> {
    if at + 3 > |b| || at + 3 + 8 * b[at + 2] as nat > |b| then None else
      var m := EntriesAt(b, at + 3, b[at + 2], map[]);
      if 3 + 8 * b[at + 2] as nat != SerializedSize(m) then None
      else Some(Decoded(b[at], b[at + 1], m, SerializedSize(m)))
  }

  // ---------- round trip ----------

  lemma EntryRoundTrip(pre: Bytes, k: Address, v: U32, post: Bytes)
    ensures var b := pre + U32Bytes(k) + U32Bytes(v) + post;
            U32At(b, |pre|) == k && U32At(b, |pre| + 4) == v
  {
    var key, value := U32Bytes(k), U32Bytes(v);
    U32RoundTrip(pre, k, value + post);
    assert pre + key + value + post == pre + key + (value + post);
    U32RoundTrip(pre + key, v, post);
  }

  lemma {:induction false} EntriesRoundTrip(pre: Bytes, m: Unreachable, ks: seq<Address>, post: Bytes, acc: Unreachable)
    requires forall k :: k in ks ==> k in m
    requires forall k :: k in acc ==> k in m && acc[k] == m[k]
    ensures var r := EntriesAt(pre + EntryBytes(m, ks) + post, |pre|, |ks|, acc);
            && (forall k :: k in r ==> k in m && r[k] == m[k])
            && (forall k :: k in r <==> k in acc || k in ks)
    decreases |ks|
  {
    hide U32Bytes, U32At;
    if ks != [] {
      var entry := U32Bytes(ks[0]) + U32Bytes(m[ks[0]]);
      var rest := EntryBytes(m, ks[1..]);
      var b := pre + EntryBytes(m, ks) + post;
      assert b == pre + U32Bytes(ks[0]) + U32Bytes(m[ks[0]]) + (rest + post);
      EntryRoundTrip(pre, ks[0], m[ks[0]], rest + post);
      assert b == (pre + entry) + rest + post;
      EntriesRoundTrip(pre + entry, m, ks[1..], post, Inserted(acc, ks[0], m[ks[0]]));
    }
  }

  lemma {:induction false} EntriesAtSize(b: Bytes, at: nat, n: nat, m: Unreachable)
    requires at + 8 * n <= |b|
    ensures |EntriesAt(b, at, n, m)| <= |m| + n
    decreases n
  {
    if n > 0 {
      EntriesAtSize(b, at + 8, n - 1, Inserted(m, U32At(b, at), U32At(b, at + 4)));
    }
  }

  lemma RerrHeaderBytes(pre: Bytes, flag: U8, reserved: U8, m: Unreachable, post: Bytes)
    ensures var b := pre + RerrBytes(flag, reserved, m) + post;
            && |b| == |pre| + 3 + 8 * |m| + |post|
            && b == pre + [flag, reserved, DestCount(m)] + EntryBytes(m, Ascending(m.Keys)) + post
            && b[|pre|] == flag && b[|pre| + 1] == reserved && b[|pre| + 2] == DestCount(m)
  {
    assert |m.Keys| == |m|;
    var header := [flag, reserved, DestCount(m)];
    assert pre + RerrBytes(flag, reserved, m) + post == pre + header + EntryBytes(m, Ascending(m.Keys)) + post;
  }

  lemma EntriesOf(pre: Bytes, m: Unreachable, post: Bytes)
    ensures EntriesAt(pre + EntryBytes(m, Ascending(m.Keys)) + post, |pre|, |m|, map[]) == m
  {
    assert |Ascending(m.Keys)| == |m.Keys| == |m|;
    EntriesRoundTrip(pre, m, Ascending(m.Keys), post, map[]);
  }

  lemma RerrAtFrom(b: Bytes, at: nat, m: Unreachable)
    requires |m| <= MAX_DESTINATIONS && at + 3 + 8 * |m| <= |b|
    requires b[at + 2] == |m| && EntriesAt(b, at + 3, |m|, map[]) == m
    ensures RerrAt(b, at) == Some(Decoded(b[at], b[at + 1], m, SerializedSize(m)))
  {
  }

  lemma FittingRerrRoundTrip(pre: Bytes, flag: U8, reserved: U8, m: Unreachable, post: Bytes)
    requires |m| <= MAX_DESTINATIONS
    ensures RerrAt(pre + RerrBytes(flag, reserved, m) + post, |pre|) ==
            Some(Decoded(flag, reserved, m, SerializedSize(m)))
  {
    hide RerrAt, RerrBytes, EntriesAt, EntryBytes;
    RerrHeaderBytes(pre, flag, reserved, m, post);
    EntriesOf(pre + [flag, reserved, DestCount(m)], m, post);
    RerrAtFrom(pre + RerrBytes(flag, reserved, m) + post, |pre|, m);
  }

  // Reading what was written gives the header back and consumes exactly its serialized size, whatever
  // precedes or follows, precisely for headers of at most 255 destinations.
  lemma RerrRoundTrip(pre: Bytes, flag: U8, reserved: U8, m: Unreachable, post: Bytes)
    ensures |m| <= MAX_DESTINATIONS <==>
            RerrAt(pre + RerrBytes(flag, reserved, m) + post, |pre|) ==
              Some(Decoded(flag, reserved, m, SerializedSize(m)))
  {
    if |m| <= MAX_DESTINATIONS {
      FittingRerrRoundTrip(pre, flag, reserved, m, post);
    } else {
      hide RerrBytes, EntriesAt;
      RerrHeaderBytes(pre, flag, reserved, m, post);
      EntriesAtSize(pre + RerrBytes(flag, reserved, m) + post, |pre| + 3, DestCount(m), map[]);
    }
  }

  // A header written over a buffer is read back from the same place.
  lemma RerrReadsBack(b: Bytes, at: nat, flag: U8, reserved: U8, m: Unreachable)
    requires |m| <= MAX_DESTINATIONS && at + |RerrBytes(flag, reserved, m)| <= |b|
    ensures RerrAt(Overwritten(b, at, RerrBytes(flag, reserved, m)), at) ==
            Some(Decoded(flag, reserved, m, SerializedSize(m)))
  {
    hide RerrAt, RerrBytes;
    RerrRoundTrip(b[..at], flag, reserved, m, b[at + |RerrBytes(flag, reserved, m)|..]);
  }

  lemma EntryBytesStep(m: Unreachable, todo: set<Address>, written: Bytes)
    requires todo <= m.Keys && todo != {}
    ensures var k := Least(todo);
            written + EntryBytes(m, Ascending(todo)) ==
            written + U32Bytes(k) + U32Bytes(m[k]) + EntryBytes(m, Ascending(todo - {k}))
  {
    var k, ks := Least(todo), Ascending(todo);
    assert ks[0] == k && ks[1..] == Ascending(todo - {k});
  }

  // ---------- the header ----------

  class RerrHeader {
    var flag: U8
    var reserved: U8
    var unreachable: Unreachable

    constructor ()
      ensures flag == 0 && reserved == 0 && unreachable == map[]
    {
      flag, reserved, unreachable := 0, 0, map[];
    }

    // The source asserts that a new destination finds room; it never answers false.
    method AddUnDestination(dst: Address, seqNo: U32) returns (ok: bool)
      requires dst in unreachable || DestCount(unreachable) < 255
      modifies this`unreachable
      ensures ok
      ensures unreachable == Inserted(old(unreachable), dst, seqNo)
    {
      if dst in unreachable {
        return true;
      }
      unreachable := unreachable[dst := seqNo];
      return true;
    }

    // Takes out the entry of the least destination.
    method RemoveUnDestination() returns (removed: bool, dst: Address, seqNo: U32)
      modifies this`unreachable
      ensures removed <==> old(unreachable) != map[]
      ensures removed ==>
        && dst == Least(old(unreachable).Keys)
        && seqNo == old(unreachable)[dst]
        && unreachable == old(unreachable) - {dst}
      ensures !removed ==> unreachable == old(unreachable)
    {
      if unreachable == map[] {
        return false, 0, 0;
      }
      dst := Begin(unreachable.Keys);
      seqNo := unreachable[dst];
      unreachable := unreachable - {dst};
      return true, dst, seqNo;
    }

    method Serialize(start: BufferIterator)
      requires start.cur + 3 + 8 * |unreachable| <= start.data.Length
      modifies start.data
      ensures start.data[..] == Overwritten(old(start.data[..]), start.cur, RerrBytes(flag, reserved, unreachable))
    {
      var i := new BufferIterator(start.data, start.cur);
      i.WriteU8(flag);
      i.WriteU8(reserved);
      i.WriteU8(DestCount(unreachable));
      assert i.written == [flag, reserved, DestCount(unreachable)];
      assert i.cur == start.cur + 3;
      SerializeEntries(i);
      assert i.written == RerrBytes(flag, reserved, unreachable);
    }

    // The loop of Serialize.
    method SerializeEntries(i: BufferIterator)
      requires i.Writing() && i.cur + 8 * |unreachable| <= i.data.Length
      modifies i`cur, i`written, i.data
      ensures i.Writing() && i.written == old(i.written) + EntryBytes(unreachable, Ascending(unreachable.Keys))
    {
      var todo := unreachable.Keys;
      assert |todo| == |unreachable|;
      while todo != {}
        invariant todo <= unreachable.Keys
        invariant i.Writing() && i.cur + 8 * |todo| <= i.data.Length
        invariant i.written + EntryBytes(unreachable, Ascending(todo)) ==
                  old(i.written) + EntryBytes(unreachable, Ascending(unreachable.Keys))
        decreases todo
      {
        var k := Begin(todo);
        EntryBytesStep(unreachable, todo, i.written);
        i.WriteHtonU32(k);
        i.WriteHtonU32(unreachable[k]);
        todo := todo - {k};
      }
    }

    // None where the buffer would be overrun or the source's size assertion would fail.
    method Deserialize(start: BufferIterator) returns (size: Option<nat>)
      requires start.cur <= start.data.Length
      modifies this
      ensures match RerrAt(start.data[..], start.cur)
              case None => size == None
              case Some(d) =>
                size == Some(d.size) && flag == d.flag && reserved == d.reserved && unreachable == d.unreachable
    {
      var i := new BufferIterator(start.data, start.cur);
      if start.data.Length - i.cur < 3 {
        return None;
      }
      flag := i.ReadU8();
      reserved := i.ReadU8();
      var dest := i.ReadU8();
      if start.data.Length - i.cur < 8 * dest as nat {
        return None;
      }
      DeserializeEntries(i, dest);
      var dist := i.cur - start.cur;
      return if dist == 3 + 8 * DestCount(unreachable) as nat then Some(dist) else None;
    }

    // The loop of Deserialize.
    method DeserializeEntries(i: BufferIterator, dest: U8)
      requires i.cur + 8 * dest as nat <= i.data.Length
      modifies this`unreachable, i`cur
      ensures i.cur == old(i.cur) + 8 * dest as nat
      ensures unreachable == EntriesAt(i.data[..], old(i.cur), dest, map[])
    {
      unreachable := map[];
      var k: nat := 0;
      while k < dest
        invariant 0 <= k <= dest
        invariant i.cur == old(i.cur) + 8 * k
        invariant EntriesAt(i.data[..], i.cur, dest - k, unreachable) == EntriesAt(i.data[..], old(i.cur), dest, map[])
      {
        var address := i.ReadNtohU32();
        var seqNo := i.ReadNtohU32();
        unreachable := if address in unreachable then unreachable else unreachable[address := seqNo];
        k := k + 1;
      }
    }
  }
}
