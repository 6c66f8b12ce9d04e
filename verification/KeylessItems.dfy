/**
 Tag-length-value items: one tag byte, a two-byte big-endian length, the value.  What the
 walk over a message body finds is characterised by the encoding of item lists, in both
 directions.
 */
module KeylessItems {

  type Byte = x: int | 0 <= x < 256

  datatype Item = Item(tag: Byte, value: seq<Byte>)

  const ITEM_HEADER_LENGTH: nat := 3

  predicate Fits(item: Item) {
    |item.value| < 0x1_0000
  }

  ghost predicate AllFit(items: seq<Item>) {
    forall k :: 0 <= k < |items| ==> Fits(items[k])
  }

  function EncodeItem(item: Item): seq<Byte>
    requires Fits(item)
  {
    [item.tag, |item.value| / 256, |item.value| % 256] + item.value
  }

  function EncodeItems(items: seq<Item>): seq<Byte>
    requires AllFit(items)
  {
    if items == [] then [] else EncodeItem(items[0]) + EncodeItems(items[1..])
  }

  function Length16(v: seq<Byte>, at: nat): nat
    requires at + 1 < |v|
  {
    (v[at] as int) * 256 + v[at + 1] as int
  }

  /** The bytes begin with a whole item. */
  predicate HasItem(v: seq<Byte>) {
    ITEM_HEADER_LENGTH <= |v| && ITEM_HEADER_LENGTH + Length16(v, 1) <= |v|
  }

  function FirstLength(v: seq<Byte>): nat
    requires HasItem(v)
  {
    ITEM_HEADER_LENGTH + Length16(v, 1)
  }

  function FirstItem(v: seq<Byte>): Item
    requires HasItem(v)
  {
    Item(v[0], v[ITEM_HEADER_LENGTH..FirstLength(v)])
  }

  /** The items met, and whether the body ended exactly after the last of them. */
  datatype Walk = Walk(items: seq<Item>, complete: bool)

  function WalkItems(v: seq<Byte>): Walk {
    if !HasItem(v) then Walk([], false)
    else if FirstLength(v) == |v| then Walk([FirstItem(v)], true)
    else var rest := WalkItems(v[FirstLength(v)..]);
         Walk([FirstItem(v)] + rest.items, rest.complete)
  }

  /** The same walk by offsets into the whole body. */
  ghost function WalkFrom(v: seq<Byte>, offset: nat): Walk
    requires offset <= |v|
    decreases |v| - offset
  {
    if !ItemAt(v, offset) then Walk([], false)
    else
      var end := EndAt(v, offset);
      var item := Item(v[offset], v[offset + ITEM_HEADER_LENGTH..end]);
      if end == |v| then Walk([item], true)
      else var rest := WalkFrom(v, end);
           Walk([item] + rest.items, rest.complete)
  }

  predicate ItemAt(v: seq<Byte>, offset: nat) {
    offset + ITEM_HEADER_LENGTH <= |v| && offset + ITEM_HEADER_LENGTH + Length16(v, offset + 1) <= |v|
  }

  function EndAt(v: seq<Byte>, offset: nat): nat
    requires ItemAt(v, offset)
  {
    offset + ITEM_HEADER_LENGTH + Length16(v, offset + 1)
  }

  lemma ItemHere(v: seq<Byte>, offset: nat)
    requires offset <= |v|
    ensures HasItem(v[offset..]) <==> ItemAt(v, offset)
    ensures ItemAt(v, offset) ==>
              && FirstLength(v[offset..]) == EndAt(v, offset) - offset
              && FirstItem(v[offset..]) == Item(v[offset], v[offset + ITEM_HEADER_LENGTH..EndAt(v, offset)])
              && v[offset..][FirstLength(v[offset..])..] == v[EndAt(v, offset)..]
  {
  }

  lemma {:induction false} WalkFromIs(v: seq<Byte>, offset: nat)
    requires offset <= |v|
    ensures WalkFrom(v, offset) == WalkItems(v[offset..])
    decreases |v| - offset
  {
    ItemHere(v, offset);
    if ItemAt(v, offset) && EndAt(v, offset) < |v| {
      WalkFromIs(v, EndAt(v, offset));
    }
  }

  /** A walk over `v` that has met `seen` and stands at `offset`. */
  ghost predicate WalkAt(v: seq<Byte>, offset: nat, seen: seq<Item>) {
    && offset <= |v|
    && WalkFrom(v, 0) == Walk(seen + WalkFrom(v, offset).items, WalkFrom(v, offset).complete)
  }

  /** A walk that has met `seen` and is done if `offset` is the end of the body. */
  ghost predicate WalkedTo(v: seq<Byte>, offset: nat, seen: seq<Item>) {
    if offset == |v| then WalkFrom(v, 0) == Walk(seen, true) else WalkAt(v, offset, seen)
  }

  lemma WalkEnds(v: seq<Byte>, offset: nat, seen: seq<Item>)
    requires WalkAt(v, offset, seen) && !ItemAt(v, offset)
    ensures WalkFrom(v, 0) == Walk(seen, false)
  {
    assert seen + [] == seen;
  }

  lemma WalkNext(v: seq<Byte>, offset: nat, seen: seq<Item>)
    requires WalkAt(v, offset, seen) && ItemAt(v, offset)
    ensures var item := Item(v[offset], v[offset + ITEM_HEADER_LENGTH..EndAt(v, offset)]);
            && |WalkFrom(v, 0).items| > |seen| && WalkFrom(v, 0).items[|seen|] == item
            && WalkedTo(v, EndAt(v, offset), seen + [item])
  {
    var end := EndAt(v, offset);
    var item := Item(v[offset], v[offset + ITEM_HEADER_LENGTH..end]);
    if end < |v| {
      var more := WalkFrom(v, end).items;
      assert seen + ([item] + more) == seen + [item] + more;
    }
  }

  lemma FirstEncodes(v: seq<Byte>)
    requires HasItem(v)
    ensures Fits(FirstItem(v)) && EncodeItem(FirstItem(v)) == v[..FirstLength(v)]
  {
  }

  lemma EncodedIsFirst(item: Item, rest: seq<Byte>)
    requires Fits(item)
    ensures var v := EncodeItem(item) + rest;
            HasItem(v) && FirstItem(v) == item && FirstLength(v) == |EncodeItem(item)| && v[FirstLength(v)..] == rest
  {
    var v := EncodeItem(item) + rest;
    assert Length16(v, 1) == |item.value|;
    assert v[3..3 + |item.value|] == item.value;
    assert v[FirstLength(v)..] == rest;
  }

  /** The walk splits the body into encoded items and a rest that does not begin with an item. */
  lemma {:induction false} WalkSplits(v: seq<Byte>)
    ensures var w := WalkItems(v);
            && AllFit(w.items) && EncodeItems(w.items) <= v
            && (w.complete ==> w.items != [] && EncodeItems(w.items) == v)
            && (!w.complete ==> !HasItem(v[|EncodeItems(w.items)|..]))
            && (!w.complete && w.items != [] ==> EncodeItems(w.items) != v)
    decreases |v|
  {
    if HasItem(v) {
      var n := FirstLength(v);
      FirstEncodes(v);
      if n == |v| {
        assert v[..n] == v;
        assert EncodeItems([FirstItem(v)]) == EncodeItem(FirstItem(v)) + [];
      } else {
        var tail := v[n..];
        WalkSplits(tail);
        var w := WalkItems(tail);
        assert ([FirstItem(v)] + w.items)[1..] == w.items;
        var e := EncodeItems(w.items);
        assert EncodeItems([FirstItem(v)] + w.items) == v[..n] + e;
        assert v == v[..n] + tail;
        assert v[|v[..n] + e|..] == tail[|e|..];
      }
    }
  }

  lemma WalkOfFirst(item: Item, tail: seq<Byte>)
    requires Fits(item)
    ensures WalkItems(EncodeItem(item) + tail)
            == if tail == [] then Walk([item], true) else Walk([item] + WalkItems(tail).items, WalkItems(tail).complete)
  {
    EncodedIsFirst(item, tail);
  }

  /** Encoded items followed by something that is no item are found again, and nothing else. */
  lemma {:induction false} WalkFinds(items: seq<Item>, rest: seq<Byte>)
    requires AllFit(items) && !HasItem(rest)
    ensures WalkItems(EncodeItems(items) + rest) == Walk(items, items != [] && rest == [])
    decreases |items|
  {
    if items == [] {
      assert EncodeItems(items) + rest == rest;
    } else {
      var v := EncodeItems(items) + rest;
      var tail := EncodeItems(items[1..]) + rest;
      assert v == EncodeItem(items[0]) + tail;
      WalkOfFirst(items[0], tail);
      WalkFinds(items[1..], rest);
      assert items == [items[0]] + items[1..];
      if tail == [] {
        EncodedEmpty(items[1..]);
      }
    }
  }

  lemma EncodedEmpty(items: seq<Item>)
    requires AllFit(items) && EncodeItems(items) == []
    ensures items == []
  {
  }

  /** A body is walked to its end exactly if it is the encoding of one or more items. */
  lemma CompleteIff(v: seq<Byte>, items: seq<Item>)
    requires AllFit(items)
    ensures WalkItems(v) == Walk(items, true) <==> items != [] && v == EncodeItems(items)
  {
    WalkSplits(v);
    if items != [] && v == EncodeItems(items) {
      assert v == EncodeItems(items) + [];
      WalkFinds(items, []);
    }
  }

  /** The value of the last item with this tag. */
  function Last(items: seq<Item>, tag: Byte, none: seq<Byte>): seq<Byte> {
    if items == [] then none
    else if items[|items| - 1].tag == tag then items[|items| - 1].value
    else Last(items[..|items| - 1], tag, none)
  }

  /** What `Last` means: the value at the greatest index that carries the tag. */
  lemma {:induction false} LastIs(items: seq<Item>, tag: Byte, none: seq<Byte>)
    ensures (forall k :: 0 <= k < |items| ==> items[k].tag != tag) ==> Last(items, tag, none) == none
    ensures forall k :: 0 <= k < |items| && items[k].tag == tag && (forall j :: k < j < |items| ==> items[j].tag != tag) ==>
              Last(items, tag, none) == items[k].value
  {
    if items != [] && items[|items| - 1].tag != tag {
      LastIs(items[..|items| - 1], tag, none);
    }
  }

  lemma {:induction false} EncodedConcat(a: seq<Item>, b: seq<Item>)
    requires AllFit(a) && AllFit(b)
    ensures EncodeItems(a + b) == EncodeItems(a) + EncodeItems(b)
  {
    if a == [] {
      assert a + b == b;
    } else {
      assert (a + b)[1..] == a[1..] + b;
      EncodedConcat(a[1..], b);
    }
  }

  /** The last item with a tag takes up its room in the encoding. */
  lemma {:induction false} LastTakesRoom(items: seq<Item>, tag: Byte)
    requires AllFit(items)
    ensures Last(items, tag, []) != [] ==> ITEM_HEADER_LENGTH + |Last(items, tag, [])| <= |EncodeItems(items)|
    ensures |Last(items, tag, [])| < 0x1_0000
  {
    if items != [] {
      var n := |items| - 1;
      assert items == items[..n] + [items[n]];
      EncodedConcat(items[..n], [items[n]]);
      assert EncodeItems([items[n]]) == EncodeItem(items[n]) + [];
      LastTakesRoom(items[..n], tag);
    }
  }

  /** Items with two different tags take up the room of both. */
  lemma {:induction false} TwoTakeRoom(items: seq<Item>, s: Byte, t: Byte)
    requires AllFit(items) && s != t && Last(items, s, []) != [] && Last(items, t, []) != []
    ensures 2 * ITEM_HEADER_LENGTH + |Last(items, s, [])| + |Last(items, t, [])| <= |EncodeItems(items)|
  {
    if items != [] {
      var n := |items| - 1;
      assert items == items[..n] + [items[n]];
      EncodedConcat(items[..n], [items[n]]);
      assert EncodeItems([items[n]]) == EncodeItem(items[n]) + [];
      if items[n].tag == s {
        LastTakesRoom(items[..n], t);
      } else if items[n].tag == t {
        LastTakesRoom(items[..n], s);
      } else {
        TwoTakeRoom(items[..n], s, t);
      }
    }
  }
}
