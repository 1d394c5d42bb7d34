/**
 DER as the KRB-CRED writer produces it, and the independent TLV walker the wire-capture tool
 reads it with. Lengths are 64-bit, as `usize` is on the platforms the client ships for.
 */
module Der {
  import opened Wrappers
  import opened Bytes

  const USIZE: nat := 0x1_0000_0000_0000_0000

  const TAG_INTEGER: Byte := 0x02
  const TAG_BIT_STRING: Byte := 0x03
  const TAG_OCTET_STRING: Byte := 0x04
  const TAG_GENERALIZED_TIME: Byte := 0x18
  const TAG_GENERAL_STRING: Byte := 0x1b
  const TAG_SEQUENCE: Byte := 0x30

  // ---- Lengths and elements ------------------------------------------------------

  /** The index of the first octet that is not zero, or the length. */
  function FirstNonZero(s: seq<Byte>): (i: nat)
    ensures i <= |s|
    ensures i < |s| ==> s[i] != 0
    ensures forall j :: 0 <= j < i ==> s[j] == 0
  {
    if s == [] || s[0] != 0 then 0 else 1 + FirstNonZero(s[1..])
  }

  /** `s` without its leading zero octets. */
  function Significant(s: seq<Byte>): seq<Byte> {
    s[FirstNonZero(s)..]
  }

  function LengthOctets(n: nat): (r: seq<Byte>)
    requires n < USIZE
    ensures 1 <= |r| <= 9
  {
    if n < 0x80 then [n]
    else
      var octets := Significant(BeBytes(n, 8));
      [0x80 + |octets|] + octets
  }

  /** Tag, DER length, content. */
  function Tlv(tag: Byte, content: seq<Byte>): (r: seq<Byte>)
    requires |content| < USIZE
    ensures |content| < |r| <= |content| + 10
  {
    [tag] + LengthOctets(|content|) + content
  }

  // ---- Integers --------------------------------------------------------------------

  type I64 = v: int | -0x8000_0000_0000_0000 <= v < 0x8000_0000_0000_0000

  /** `i64::to_be_bytes`. */
  function I64Octets(v: I64): (s: seq<Byte>)
    ensures |s| == 8
  {
    BeBytes(if v < 0 then v + USIZE else v, 8)
  }

  /** Drop a leading zero octet while the next one keeps the sign positive. */
  function Trim(s: seq<Byte>): (r: seq<Byte>)
    requires s != []
    ensures r != [] && |r| <= |s|
  {
    if |s| > 1 && s[0] == 0 && s[1] < 0x80 then Trim(s[1..]) else s
  }

  /** The content octets of `v` as a DER integer. */
  function IntegerContent(v: I64): (r: seq<Byte>)
    ensures 1 <= |r| <= 8
  {
    Trim(I64Octets(v))
  }

  function Integer(v: I64): (r: seq<Byte>)
    ensures |r| <= 18
  {
    Tlv(TAG_INTEGER, IntegerContent(v))
  }

  /** The loop the client encodes an integer with. */
  method EncodeInteger(v: I64) returns (r: seq<Byte>)
    ensures r == Integer(v)
  {
    var be := I64Octets(v);
    var first := 0;
    while first < 7 && be[first] == 0 && be[first + 1] < 0x80
      invariant 0 <= first <= 7
      invariant Trim(be[first..]) == Trim(be)
    {
      assert be[first..][1..] == be[first + 1..];
      first := first + 1;
    }
    r := Tlv(TAG_INTEGER, be[first..]);
  }

  /** What an integer's content octets mean: two's complement (section 8.3.3 of X.690). */
  function TwosValue(s: seq<Byte>): int
    requires s != []
  {
    BeValue(s) - (if s[0] >= 0x80 then Pow256(|s|) else 0)
  }

  /** Section 8.3.2 of X.690: the first nine bits are not all equal. */
  predicate MinimalInteger(s: seq<Byte>)
    requires s != []
  {
    |s| == 1 || (!(s[0] == 0 && s[1] < 0x80) && !(s[0] == 0xFF && s[1] >= 0x80))
  }

  lemma {:induction false} BeValueSplit(s: seq<Byte>)
    requires s != []
    ensures BeValue(s) == s[0] * Pow256(|s| - 1) + BeValue(s[1..])
  {
    if |s| == 1 {
      assert s[..0] == [] && s[1..] == [];
      assert BeValue(s) == s[0];
    } else {
      var init := s[..|s| - 1];
      BeValueSplit(init);
      assert s[1..][..|s| - 2] == init[1..];
      var top := s[0] * Pow256(|s| - 2);
      assert BeValue(s) == 256 * (top + BeValue(init[1..])) + s[|s| - 1];
      assert s[0] * (256 * Pow256(|s| - 2)) == 256 * top;
    }
  }

  lemma {:induction false} TrimKeepsValue(s: seq<Byte>)
    requires s != []
    ensures TwosValue(Trim(s)) == TwosValue(s)
  {
    if |s| > 1 && s[0] == 0 && s[1] < 0x80 {
      BeValueSplit(s);
      TrimKeepsValue(s[1..]);
    }
  }

  lemma FirstOctet(s: seq<Byte>)
    requires s != []
    ensures var head: int := s[0];
            head * Pow256(|s| - 1) <= BeValue(s) < (head + 1) * Pow256(|s| - 1)
  {
    BeValueSplit(s);
    BeValueBound(s[1..]);
  }

  /** Decoding gives the number back, negative numbers included. */
  lemma IntegerValue(v: I64)
    ensures TwosValue(IntegerContent(v)) == v
  {
    PowersOf256();
    var u := if v < 0 then v + USIZE else v;
    BeRoundTrip(u, 8);
    FirstOctet(I64Octets(v));
    TrimKeepsValue(I64Octets(v));
  }

  lemma {:induction false} TrimIsMinimal(s: seq<Byte>)
    requires s != [] && s[0] < 0x80
    ensures MinimalInteger(Trim(s)) && Trim(s)[0] < 0x80
  {
    if |s| > 1 && s[0] == 0 && s[1] < 0x80 {
      TrimIsMinimal(s[1..]);
    }
  }

  /**
   The encoding is minimal for every non-negative number, which is all the writer passes. It never
   drops a leading 0xFF, so a negative number is minimal only when it needs all eight octets.
   */
  lemma IntegerIsMinimal(v: I64)
    ensures MinimalInteger(IntegerContent(v)) <==> v >= 0 || v < -0x80_0000_0000_0000
  {
    PowersOf256();
    var s := I64Octets(v);
    var u := if v < 0 then v + USIZE else v;
    BeRoundTrip(u, 8);
    FirstOctet(s);
    if v >= 0 {
      TrimIsMinimal(s);
    } else {
      BeValueSplit(s);
      FirstOctet(s[1..]);
      var p6 := Pow256(6);
      assert 256 * p6 == 0x100_0000_0000_0000;
      assert s[1..][0] == s[1];
    }
  }

  /** Minimal means what it says: no shorter octet string has the same value. */
  lemma MinimalIsShortest(s: seq<Byte>, s': seq<Byte>)
    requires s != [] && s' != []
    requires MinimalInteger(s) && TwosValue(s) == TwosValue(s')
    ensures |s| <= |s'|
  {
    if |s'| < |s| {
      TwosBound(s');
      PowMonotone(|s'|, |s| - 1);
      var half := 128 * Pow256(|s| - 2);
      assert 256 * Pow256(|s'| - 1) == Pow256(|s'|) && 256 * Pow256(|s| - 2) == Pow256(|s| - 1);
      assert -half <= TwosValue(s') < half;
      MinimalIsWide(s);
    }
  }

  lemma MinimalIsWide(s: seq<Byte>)
    requires |s| >= 2 && MinimalInteger(s)
    ensures TwosValue(s) >= 128 * Pow256(|s| - 2) || TwosValue(s) < -128 * Pow256(|s| - 2)
  {
    var p := Pow256(|s| - 2);
    var head: int := s[0];
    var next: int := s[1];
    var tail := BeValue(s[1..]);
    BeValueSplit(s);
    FirstOctet(s[1..]);
    assert next * p <= tail < (next + 1) * p;
    var scaled := head * (256 * p);
    assert BeValue(s) == scaled + tail;
    if head == 0 {
      Scale(128, next, p);
    } else if head < 0x80 {
      Scale(1, head, 256 * p);
    } else if head == 0xFF {
      Scale(next + 1, 128, p);
    } else {
      Scale(head, 254, 256 * p);
      Scale(next + 1, 256, p);
    }
  }

  lemma Scale(a: int, b: int, p: nat)
    requires a <= b
    ensures a * p <= b * p
  {
  }

  lemma TwosBound(s: seq<Byte>)
    requires s != []
    ensures -128 * Pow256(|s| - 1) <= TwosValue(s) < 128 * Pow256(|s| - 1)
  {
    FirstOctet(s);
    var p := Pow256(|s| - 1);
    var head: int := s[0];
    if head >= 0x80 {
      Scale(128, head, p);
      Scale(head + 1, 256, p);
    } else {
      Scale(head + 1, 128, p);
      Scale(0, head, p);
    }
  }

  lemma {:induction false} PowMonotone(j: nat, k: nat)
    requires j <= k
    ensures Pow256(j) <= Pow256(k)
  {
    if j < k {
      PowMonotone(j, k - 1);
    }
  }

  // ---- The independent reader ---------------------------------------------------------

  /** One TLV found in a buffer: its tag and where its content lies. */
  datatype Item = Item(tag: Byte, lo: nat, hi: nat)

  /** What the walk yields, and whether it ended by running off the buffer. */
  datatype Walked = Walked(items: seq<Item>, raised: bool)

  function Min(a: nat, b: nat): nat { if a <= b then a else b }

  /** The length at `i` and the index after it. A slice past the end of the buffer is clipped. */
  function DerLen(b: seq<Byte>, i: nat): (r: (nat, nat))
    requires i < |b|
    ensures r.1 > i
  {
    if b[i] < 0x80 then (b[i], i + 1)
    else
      var k := b[i] - 0x80;
      (BeValue(b[i + 1..Min(i + 1 + k, |b|)]), i + 1 + k)
  }

  /** The index after a multi-octet tag whose continuation starts at `i`. */
  function SkipTag(b: seq<Byte>, i: nat): (r: Option<nat>)
    ensures r.Some? ==> r.value > i
    decreases |b| - i
  {
    if i >= |b| then None
    else if b[i] >= 0x80 then SkipTag(b, i + 1)
    else Some(i + 1)
  }

  function TagEnd(b: seq<Byte>, i: nat): (r: Option<nat>)
    requires i < |b|
    ensures r.Some? ==> r.value > i
  {
    if b[i] % 0x20 == 0x1F then SkipTag(b, i + 1) else Some(i + 1)
  }

  function Walk(b: seq<Byte>, i: nat, end: nat): (r: Walked)
    ensures forall k :: 0 <= k < |r.items| ==> i < r.items[k].lo <= r.items[k].hi <= end
    decreases if i < end then end - i else 0
  {
    if i >= end then Walked([], false)
    else if i >= |b| then Walked([], true)
    else
      match TagEnd(b, i)
      case None => Walked([], true)
      case Some(j) =>
        if j >= |b| then Walked([], true)
        else
          var (n, k) := DerLen(b, j);
          if k + n > end then Walked([], false)
          else
            var rest := Walk(b, k + n, end);
            After([Item(b[i], k, k + n)], rest)
  }

  method SkipTagLoop(b: seq<Byte>, start: nat) returns (r: Option<nat>)
    ensures r == SkipTag(b, start)
  {
    var i := start;
    while i < |b| && b[i] >= 0x80
      invariant SkipTag(b, i) == SkipTag(b, start)
    {
      i := i + 1;
    }
    return if i < |b| then Some(i + 1) else None;
  }

  /** A walk that has already yielded `items`. */
  function After(items: seq<Item>, w: Walked): Walked {
    Walked(items + w.items, w.raised)
  }

  lemma AfterStep(items: seq<Item>, item: Item, w: Walked)
    ensures After(items, After([item], w)) == After(items + [item], w)
  {
    assert items + ([item] + w.items) == items + [item] + w.items;
  }

  /** The generator, run to its end. */
  method DerIter(b: seq<Byte>, start: nat, end: nat) returns (r: Walked)
    ensures r == Walk(b, start, end)
  {
    hide DerLen, SkipTag;
    var items := [];
    var i := start;
    while i < end
      invariant Walk(b, start, end) == After(items, Walk(b, i, end))
      decreases if i < end then end - i else 0
    {
      if i >= |b| {
        return Walked(items, true);
      }
      var tag := b[i];
      var j := i + 1;
      if tag % 0x20 == 0x1F {
        var skipped := SkipTagLoop(b, j);
        if skipped.None? {
          return Walked(items, true);
        }
        j := skipped.value;
      }
      if j >= |b| {
        return Walked(items, true);
      }
      var (n, k) := DerLen(b, j);
      if k + n > end {
        return Walked(items, false);
      }
      AfterStep(items, Item(tag, k, k + n), Walk(b, k + n, end));
      items := items + [Item(tag, k, k + n)];
      i := k + n;
    }
    return Walked(items, false);
  }

  // ---- The walker reads what the writer wrote --------------------------------------------

  datatype Element = Element(tag: Byte, content: seq<Byte>)

  /** An element the writer can emit: a one-octet tag and content of a possible size. */
  predicate Writable(e: Element) {
    e.tag % 0x20 != 0x1F && |e.content| < USIZE
  }

  predicate AllWritable(es: seq<Element>) {
    forall k :: 0 <= k < |es| ==> Writable(es[k])
  }

  function Join(es: seq<Element>): seq<Byte>
    requires AllWritable(es)
  {
    if es == [] then [] else Tlv(es[0].tag, es[0].content) + Join(es[1..])
  }

  /** Section 10.1 of X.690: the short form below 128, and no leading zero octet in the long form. */
  predicate MinimalLength(header: seq<Byte>, n: nat) {
    if n < 0x80 then header == [n]
    else |header| >= 2 && header[0] == 0x80 + |header| - 1 && header[1] != 0
  }

  /** The items follow each other from index `i`, each behind a one-octet tag and a minimal length. */
  predicate MinimalHeaders(b: seq<Byte>, i: nat, items: seq<Item>)
    decreases items
  {
    items == [] ||
    (&& i + 1 <= items[0].lo <= items[0].hi <= |b|
     && MinimalLength(b[i + 1..items[0].lo], items[0].hi - items[0].lo)
     && MinimalHeaders(b, items[0].hi, items[1..]))
  }

  /** The elements that make up exactly the octets `s`, as the walker sees them, every length minimal. */
  function Elements(s: seq<Byte>): Option<seq<Element>> {
    var w := Walk(s, 0, |s|);
    if w.raised || (if w.items == [] then 0 else w.items[|w.items| - 1].hi) != |s| then None
    else if !MinimalHeaders(s, 0, w.items) then None
    else Some(Contents(s, w.items))
  }

  function Contents(s: seq<Byte>, items: seq<Item>): seq<Element>
    requires forall k :: 0 <= k < |items| ==> items[k].lo <= items[k].hi <= |s|
  {
    seq(|items|, k requires 0 <= k < |items| => Element(items[k].tag, s[items[k].lo..items[k].hi]))
  }

  lemma {:induction false} SignificantValue(s: seq<Byte>)
    ensures BeValue(Significant(s)) == BeValue(s)
  {
    if s != [] && s[0] == 0 {
      BeValueSplit(s);
      SignificantValue(s[1..]);
      assert Significant(s) == Significant(s[1..]);
    } else {
      assert Significant(s) == s;
    }
  }

  lemma LongForm(n: nat)
    requires 0x80 <= n < USIZE
    ensures var octets := Significant(BeBytes(n, 8));
            1 <= |octets| <= 8 && octets[0] != 0 && BeValue(octets) == n
  {
    PowersOf256();
    BeRoundTrip(n, 8);
    SignificantValue(BeBytes(n, 8));
  }

  lemma LengthReadsBack(b: seq<Byte>, i: nat, n: nat)
    requires n < USIZE && i + |LengthOctets(n)| <= |b|
    requires b[i..i + |LengthOctets(n)|] == LengthOctets(n)
    ensures DerLen(b, i) == (n, i + |LengthOctets(n)|)
  {
    var written := b[i..i + |LengthOctets(n)|];
    assert written[0] == b[i];
    if n >= 0x80 {
      LongForm(n);
      assert b[i + 1..i + |written|] == written[1..] == Significant(BeBytes(n, 8));
    }
  }

  /** Section 10.1 of X.690: no other length octets the walker accepts are shorter. */
  lemma LengthIsShortest(b: seq<Byte>, i: nat)
    requires i < |b| && DerLen(b, i).1 <= |b| && DerLen(b, i).0 < USIZE
    ensures |LengthOctets(DerLen(b, i).0)| <= DerLen(b, i).1 - i
  {
    var (n, next) := DerLen(b, i);
    if n >= 0x80 {
      LongForm(n);
      var octets := Significant(BeBytes(n, 8));
      FirstOctet(octets);
      Scale(1, octets[0], Pow256(|octets| - 1));
      BeValueBound(b[i + 1..next]);
      if |octets| - 1 >= next - i - 1 {
        PowMonotone(next - i - 1, |octets| - 1);
      }
    }
  }

  /** Where the walk finds `es` when they start at index `i`. */
  ghost function ItemsFrom(i: nat, es: seq<Element>): (r: seq<Item>)
    requires AllWritable(es)
    ensures |r| == |es|
    decreases es
  {
    if es == [] then []
    else
      var lo := i + 1 + |LengthOctets(|es[0].content|)|;
      [Item(es[0].tag, lo, lo + |es[0].content|)] + ItemsFrom(lo + |es[0].content|, es[1..])
  }

  lemma Pieces(s: seq<Byte>, tag: Byte, header: seq<Byte>, content: seq<Byte>, rest: seq<Byte>)
    requires s == [tag] + header + content + rest
    ensures s[0] == tag && s[1..1 + |header|] == header
    ensures s[1 + |header|..1 + |header| + |content|] == content
    ensures s[1 + |header| + |content|..] == rest
  {
  }

  /** Where the parts of the first of several written elements lie. */
  lemma FirstElement(b: seq<Byte>, i: nat, end: nat, e: Element, rest: seq<Byte>)
    requires Writable(e)
    requires i <= end <= |b| && b[i..end] == Tlv(e.tag, e.content) + rest
    ensures var header := LengthOctets(|e.content|);
            var lo := i + 1 + |header|;
            var hi := lo + |e.content|;
            && hi <= end && b[i] == e.tag && b[i + 1..lo] == header
            && b[lo..hi] == e.content && b[hi..end] == rest
  {
    hide LengthOctets;
    var header := LengthOctets(|e.content|);
    var lo := i + 1 + |header|;
    var hi := lo + |e.content|;
    Pieces(b[i..end], e.tag, header, e.content, rest);
    SubSlice(b, i, end, 1, 1 + |header|);
    SubSlice(b, i, end, 1 + |header|, 1 + |header| + |e.content|);
    SubSlice(b, i, end, hi - i, end - i);
  }

  lemma SubSlice(b: seq<Byte>, i: nat, end: nat, j: nat, k: nat)
    requires i <= end <= |b| && j <= k <= end - i
    ensures b[i..end][j..k] == b[i + j..i + k]
  {
    forall m | 0 <= m < k - j ensures b[i..end][j..k][m] == b[i + j..i + k][m] {
      assert b[i..end][j + m] == b[i + j + m];
    }
  }

  lemma WalkFindsFirst(b: seq<Byte>, i: nat, end: nat, e: Element, rest: seq<Byte>)
    requires Writable(e)
    requires i <= end <= |b| && b[i..end] == Tlv(e.tag, e.content) + rest
    ensures var lo := i + 1 + |LengthOctets(|e.content|)|;
            var hi := lo + |e.content|;
            Walk(b, i, end) == After([Item(e.tag, lo, hi)], Walk(b, hi, end))
  {
    hide LengthOctets, Tlv, DerLen;
    FirstElement(b, i, end, e, rest);
    LengthReadsBack(b, i + 1, |e.content|);
  }

  /** `items` point at `es` in the buffer, one by one. */
  ghost predicate Located(b: seq<Byte>, end: nat, items: seq<Item>, es: seq<Element>)
    requires end <= |b|
  {
    && |items| == |es|
    && (forall k :: 0 <= k < |es| ==>
          items[k].lo <= items[k].hi <= end && Element(items[k].tag, b[items[k].lo..items[k].hi]) == es[k])
    && (es != [] ==> items[|es| - 1].hi == end)
  }

  lemma {:induction false} WalkFindsAll(b: seq<Byte>, i: nat, end: nat, es: seq<Element>)
    requires AllWritable(es)
    requires i <= end <= |b| && b[i..end] == Join(es)
    ensures Walk(b, i, end) == Walked(ItemsFrom(i, es), false)
    ensures Located(b, end, ItemsFrom(i, es), es)
    decreases es
  {
    hide LengthOctets, Tlv, Walk, Located, Join, ItemsFrom;
    NothingJoined(i);
    if es == [] {
      WalkNothing(b, i);
    } else {
      var e, rest := es[0], es[1..];
      var lo := i + 1 + |LengthOctets(|e.content|)|;
      var hi := lo + |e.content|;
      JoinedFirst(i, es);
      FirstElement(b, i, end, e, Join(rest));
      WalkFindsFirst(b, i, end, e, Join(rest));
      WalkFindsAll(b, hi, end, rest);
      LocatedCons(b, end, Item(e.tag, lo, hi), e, ItemsFrom(hi, rest), rest);
      assert es == [e] + rest;
    }
  }

  lemma NothingJoined(i: nat)
    ensures Join([]) == [] && ItemsFrom(i, []) == []
  {
  }

  lemma JoinedFirst(i: nat, es: seq<Element>)
    requires AllWritable(es) && es != []
    ensures Join(es) == Tlv(es[0].tag, es[0].content) + Join(es[1..])
    ensures var lo := i + 1 + |LengthOctets(|es[0].content|)|;
            var hi := lo + |es[0].content|;
            ItemsFrom(i, es) == [Item(es[0].tag, lo, hi)] + ItemsFrom(hi, es[1..])
  {
    hide Tlv, LengthOctets;
  }

  lemma LocatedCons(b: seq<Byte>, end: nat, item: Item, e: Element, items: seq<Item>, es: seq<Element>)
    requires end <= |b| && Located(b, end, items, es)
    requires item.lo <= item.hi <= end && Element(item.tag, b[item.lo..item.hi]) == e
    requires es == [] ==> item.hi == end
    ensures Located(b, end, [item] + items, [e] + es)
  {
    var all, elements := [item] + items, [e] + es;
    forall k | 0 <= k < |elements|
      ensures all[k].lo <= all[k].hi <= end && Element(all[k].tag, b[all[k].lo..all[k].hi]) == elements[k]
    {
      if k > 0 {
        assert all[k] == items[k - 1] && elements[k] == es[k - 1];
      }
    }
  }

  lemma WalkNothing(b: seq<Byte>, i: nat)
    requires i <= |b|
    ensures Walk(b, i, i) == Walked([], false) && Located(b, i, [], [])
  {
  }

  lemma LengthIsMinimal(n: nat)
    requires n < USIZE
    ensures MinimalLength(LengthOctets(n), n)
  {
    if n >= 0x80 {
      LongForm(n);
    }
  }

  lemma {:induction false} HeadersOfJoin(b: seq<Byte>, i: nat, end: nat, es: seq<Element>)
    requires AllWritable(es)
    requires i <= end <= |b| && b[i..end] == Join(es)
    ensures MinimalHeaders(b, i, ItemsFrom(i, es))
    decreases es
  {
    hide LengthOctets, Tlv, Join, ItemsFrom, MinimalLength;
    NothingJoined(i);
    if es != [] {
      var e, rest := es[0], es[1..];
      var hi := i + 1 + |LengthOctets(|e.content|)| + |e.content|;
      JoinedFirst(i, es);
      FirstElement(b, i, end, e, Join(rest));
      LengthIsMinimal(|e.content|);
      HeadersOfJoin(b, hi, end, rest);
      assert ItemsFrom(i, es)[1..] == ItemsFrom(hi, rest);
    }
  }

  /** Walking the written elements gives them back, in order and with nothing left over. */
  lemma ElementsOfJoin(es: seq<Element>)
    requires AllWritable(es)
    ensures Elements(Join(es)) == Some(es)
  {
    var s := Join(es);
    assert s[0..|s|] == s;
    WalkFindsAll(s, 0, |s|, es);
    HeadersOfJoin(s, 0, |s|, es);
    assert Contents(s, ItemsFrom(0, es)) == es;
  }
}
