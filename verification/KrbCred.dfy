/**
 The KRB-CRED message (section 5.8.1 of RFC 4120) as the client writes it from one cached
 credential, and as an independent reader of the same ASN.1 gets it back.
 */
module KrbCred {
  import opened Wrappers
  import opened Bytes
  import opened Ccache
  import Calendar
  import opened D = Der

  // ---- Times ---------------------------------------------------------------------

  /** `n` in decimal ASCII, at least `width` digits. */
  function Padded(n: nat, width: nat): seq<Byte> {
    if n == 0 && width == 0 then []
    else Padded(n / 10, if width == 0 then 0 else width - 1) + [0x30 + n % 10]
  }

  lemma {:induction false} PaddedWidth(n: nat, width: nat)
    requires n < Pow10(width)
    ensures |Padded(n, width)| == width
    decreases width
  {
    if width > 0 {
      PaddedWidth(n / 10, width - 1);
    }
  }

  /** A 32-bit time is a date between 1970 and 2106. */
  lemma YearRange(unix: U32)
    ensures var d := Calendar.CivilFromDays(unix / 86_400);
            Calendar.ValidDate(d) && 1970 <= d.year <= 2106
  {
    hide Calendar.CivilFromDays;
    var z := unix / 86_400;
    var d := Calendar.CivilFromDays(z);
    Calendar.CivilIsDayNumber(z);
    Calendar.DayOfYearBound(d);
    if d.year > 2106 {
      Calendar.YearStartMonotone(2106, d.year);
      Calendar.YearStartClosed(2106);
    } else if d.year < 1970 {
      Calendar.YearStartMonotone(d.year, 1970);
    }
  }

  lemma Widths()
    ensures Pow10(2) == 100 && Pow10(4) == 10_000
  {
    assert Pow10(4) == 10 * Pow10(3) && Pow10(3) == 10 * Pow10(2) && Pow10(2) == 10 * Pow10(1);
  }

  /** `YYYYMMDDHHMMSSZ`. */
  function TimeText(unix: U32): (r: seq<Byte>)
    ensures |r| == 15
  {
    var d := Calendar.CivilFromDays(unix / 86_400);
    var s := unix % 86_400;
    YearRange(unix);
    Widths();
    PaddedWidth(d.year, 4);
    PaddedWidth(d.month, 2);
    PaddedWidth(d.day, 2);
    PaddedWidth(s / 3600, 2);
    PaddedWidth((s / 60) % 60, 2);
    PaddedWidth(s % 60, 2);
    Padded(d.year, 4) + Padded(d.month, 2) + Padded(d.day, 2)
    + Padded(s / 3600, 2) + Padded((s / 60) % 60, 2) + Padded(s % 60, 2) + [0x5A]
  }

  function KerberosTime(unix: U32): (r: seq<Byte>)
    ensures |r| <= 25
  {
    Tlv(TAG_GENERALIZED_TIME, TimeText(unix))
  }

  // ---- The writer ------------------------------------------------------------------

  /** `[APPLICATION n]`, constructed. */
  function App(n: nat): Byte
    requires n < 0x1F
  {
    0x60 + n
  }

  /** `[n]`, constructed: the context tag of every member of a Kerberos structure. */
  function Ctx(n: nat, content: seq<Byte>): (r: seq<Byte>)
    requires n < 0x1F && |content| < USIZE
    ensures |r| <= |content| + 10
  {
    Tlv(0xA0 + n, content)
  }

  function GeneralString(s: seq<Byte>): (r: seq<Byte>)
    requires |s| < USIZE
    ensures |r| <= |s| + 10
  {
    Tlv(TAG_GENERAL_STRING, s)
  }

  function NamesWeight(names: seq<seq<Byte>>): nat {
    if names == [] then 0 else |names[0]| + 10 + NamesWeight(names[1..])
  }

  function Weight(p: Principal): nat {
    |p.realm| + NamesWeight(p.components)
  }

  /**
   The credential's variable parts together are at most 2^63 octets, counting ten for each name
   component. A credential that exists in a 64-bit address space is within that.
   */
  predicate Fits(c: Credential) {
    |c.ticket| + |c.key| + Weight(c.client) + Weight(c.server) <= 0x8000_0000_0000_0000
  }

  function Names(names: seq<seq<Byte>>): (r: seq<Byte>)
    requires NamesWeight(names) < USIZE
    ensures |r| <= NamesWeight(names)
  {
    if names == [] then [] else GeneralString(names[0]) + Names(names[1..])
  }

  function PrincipalName(p: Principal): (r: seq<Byte>)
    requires NamesWeight(p.components) < USIZE - 100
    ensures |r| <= NamesWeight(p.components) + 60
  {
    Tlv(TAG_SEQUENCE, Ctx(0, Integer(p.nameType)) + Ctx(1, Tlv(TAG_SEQUENCE, Names(p.components))))
  }

  function TicketFlags(flags: U32): (r: seq<Byte>)
    ensures |r| <= 15
  {
    Tlv(TAG_BIT_STRING, [0] + BeBytes(flags, 4))
  }

  function EncryptionKey(c: Credential): (r: seq<Byte>)
    requires |c.key| < USIZE - 100
    ensures |r| <= |c.key| + 60
  {
    Tlv(TAG_SEQUENCE, Ctx(0, Integer(c.keytype)) + Ctx(1, Tlv(TAG_OCTET_STRING, c.key)))
  }

  /** `key`, `prealm`, `pname` and `flags` of a `KrbCredInfo`. */
  function ClientMembers(c: Credential): (r: seq<Byte>)
    requires Fits(c)
    ensures |r| <= |c.key| + Weight(c.client) + 200
  {
    Ctx(0, EncryptionKey(c)) + Ctx(1, GeneralString(c.client.realm))
    + Ctx(2, PrincipalName(c.client)) + Ctx(3, TicketFlags(c.flags))
  }

  /** Its times; a zero start or renew-till means the member is absent. */
  function TimeMembers(c: Credential): (r: seq<Byte>)
    ensures |r| <= 140
  {
    Ctx(4, KerberosTime(c.authtime))
    + (if c.starttime != 0 then Ctx(5, KerberosTime(c.starttime)) else [])
    + Ctx(6, KerberosTime(c.endtime))
    + (if c.renewTill != 0 then Ctx(7, KerberosTime(c.renewTill)) else [])
  }

  /** `srealm` and `sname`. */
  function ServerMembers(c: Credential): (r: seq<Byte>)
    requires Fits(c)
    ensures |r| <= Weight(c.server) + 100
  {
    Ctx(8, GeneralString(c.server.realm)) + Ctx(9, PrincipalName(c.server))
  }

  function InfoMembers(c: Credential): (r: seq<Byte>)
    requires Fits(c)
    ensures |r| <= |c.key| + Weight(c.client) + Weight(c.server) + 600
  {
    ClientMembers(c) + TimeMembers(c) + ServerMembers(c)
  }

  function CredInfo(c: Credential): (r: seq<Byte>)
    requires Fits(c)
    ensures |r| <= |c.key| + Weight(c.client) + Weight(c.server) + 610
  {
    Tlv(TAG_SEQUENCE, InfoMembers(c))
  }

  function EncPart(c: Credential): (r: seq<Byte>)
    requires Fits(c)
    ensures |r| <= |c.key| + Weight(c.client) + Weight(c.server) + 650
  {
    hide CredInfo, Tlv;
    Tlv(App(29), Tlv(TAG_SEQUENCE, Ctx(0, Tlv(TAG_SEQUENCE, CredInfo(c)))))
  }

  /** `etype` 0, no `kvno`, and the cipher is the plaintext. */
  function EncryptedData(c: Credential): (r: seq<Byte>)
    requires Fits(c)
    ensures |r| <= |c.key| + Weight(c.client) + Weight(c.server) + 750
  {
    hide EncPart, Tlv, Integer;
    Tlv(TAG_SEQUENCE, Ctx(0, Integer(0)) + Ctx(2, Tlv(TAG_OCTET_STRING, EncPart(c))))
  }

  /** `pvno`, `msg-type`, `tickets` and `enc-part`. */
  function MessageMembers(c: Credential): (r: seq<Byte>)
    requires Fits(c)
    ensures |r| < USIZE - 100
  {
    hide EncryptedData, Tlv, Integer;
    Ctx(0, Integer(5)) + Ctx(1, Integer(22)) + Ctx(2, Tlv(TAG_SEQUENCE, c.ticket)) + Ctx(3, EncryptedData(c))
  }

  /** The whole message, with an unencrypted `enc-part`. */
  function KrbCred(c: Credential): seq<Byte>
    requires Fits(c)
  {
    hide MessageMembers, Tlv;
    Tlv(App(22), Tlv(TAG_SEQUENCE, MessageMembers(c)))
  }

  // ---- The reader ------------------------------------------------------------------

  // Its tags are the numbers of X.690 (INTEGER 2, BIT STRING 3, OCTET STRING 4, SEQUENCE 16 constructed,
  // GeneralizedTime 24, GeneralString 27) and RFC 4120 (application tags 22 and 29, constructed).

  datatype Name = Name(nameType: int, parts: seq<seq<Byte>>)

  datatype Key = Key(keytype: int, value: seq<Byte>)

  datatype Info = Info(
    key: Key, clientRealm: Option<seq<Byte>>, client: Option<Name>, flags: Option<nat>,
    authtime: Option<int>, starttime: Option<int>, endtime: Option<int>, renewTill: Option<int>,
    serverRealm: Option<seq<Byte>>, server: Option<Name>)

  datatype Message = Message(
    pvno: int, msgType: int, tickets: seq<Byte>, etype: int, kvno: Option<int>, infos: seq<Info>)

  /** Exactly one element, with this tag: its content. */
  function Sole(s: seq<Byte>, tag: Byte): Option<seq<Byte>> {
    var es :- Elements(s);
    if |es| == 1 && es[0].tag == tag then Some(es[0].content) else None
  }

  /** The members of a SEQUENCE, in strictly ascending order of tag. */
  function Members(s: seq<Byte>): Option<seq<Element>> {
    var content :- Sole(s, 0x30);
    MembersIn(content)
  }

  function MembersIn(content: seq<Byte>): Option<seq<Element>> {
    var es :- Elements(content);
    if Ascending(es) then Some(es) else None
  }

  predicate Ascending(es: seq<Element>) {
    forall i, j :: 0 <= i < j < |es| ==> es[i].tag < es[j].tag
  }

  /** The member with context tag `n`. */
  function Find(es: seq<Element>, n: nat): Option<seq<Byte>> {
    if es == [] then None
    else if es[0].tag == 0xA0 + n then Some(es[0].content)
    else Find(es[1..], n)
  }

  /** An OPTIONAL member: absent is fine, present has to read. */
  function Optionally<T>(member: Option<seq<Byte>>, read: seq<Byte> -> Option<T>): Option<Option<T>> {
    match member
    case None => Some(None)
    case Some(content) => var x :- read(content); Some(Some(x))
  }

  function ReadInteger(s: seq<Byte>): Option<int> {
    var content :- Sole(s, 0x02);
    if content != [] && MinimalInteger(content) then Some(TwosValue(content)) else None
  }

  function ReadString(s: seq<Byte>): Option<seq<Byte>> {
    Sole(s, 0x1B)
  }

  function ReadOctets(s: seq<Byte>): Option<seq<Byte>> {
    Sole(s, 0x04)
  }

  function ReadFlags(s: seq<Byte>): Option<nat> {
    var content :- Sole(s, 0x03);
    if |content| == 5 && content[0] == 0 then Some(BeValue(content[1..])) else None
  }

  function Strings(es: seq<Element>): Option<seq<seq<Byte>>> {
    if es == [] then Some([])
    else if es[0].tag != 0x1B then None
    else var rest :- Strings(es[1..]); Some([es[0].content] + rest)
  }

  function ReadName(s: seq<Byte>): Option<Name> {
    var es :- Members(s);
    var t :- Find(es, 0);
    var nameType :- ReadInteger(t);
    var ns :- Find(es, 1);
    var content :- Sole(ns, 0x30);
    var parts :- Elements(content);
    var strings :- Strings(parts);
    Some(Name(nameType, strings))
  }

  function ReadKey(s: seq<Byte>): Option<Key> {
    var es :- Members(s);
    var t :- Find(es, 0);
    var keytype :- ReadInteger(t);
    var v :- Find(es, 1);
    var value :- ReadOctets(v);
    Some(Key(keytype, value))
  }

  function Number(s: seq<Byte>): int {
    if s == [] then 0 else 10 * Number(s[..|s| - 1]) + s[|s| - 1] - 0x30
  }

  predicate Digits(s: seq<Byte>) {
    forall i :: 0 <= i < |s| ==> 0x30 <= s[i] <= 0x39
  }

  /** A `KerberosTime` (section 5.2.3 of RFC 4120) as seconds since the epoch. */
  function ReadTime(s: seq<Byte>): Option<int> {
    var t :- Sole(s, 0x18);
    TextTime(t)
  }

  function TextTime(t: seq<Byte>): Option<int> {
    if |t| != 15 || t[14] != 0x5A || !Digits(t[..14]) then None
    else
      var date := Calendar.Date(Number(t[..4]), Number(t[4..6]), Number(t[6..8]));
      var h, m, s := Number(t[8..10]), Number(t[10..12]), Number(t[12..14]);
      if Calendar.ValidDate(date) && 0 <= h < 24 && 0 <= m < 60 && 0 <= s < 60 then
        Some(86_400 * Calendar.DayNumber(date) + 3600 * h + 60 * m + s)
      else None
  }

  /** One `KrbCredInfo`, from the content of its SEQUENCE. */
  function ReadInfo(content: seq<Byte>): Option<Info> {
    var es :- MembersIn(content);
    InfoOf(es)
  }

  function InfoOf(es: seq<Element>): Option<Info> {
    var k :- Find(es, 0);
    var key :- ReadKey(k);
    var clientRealm :- Optionally(Find(es, 1), ReadString);
    var client :- Optionally(Find(es, 2), ReadName);
    var flags :- Optionally(Find(es, 3), ReadFlags);
    var authtime :- Optionally(Find(es, 4), ReadTime);
    var starttime :- Optionally(Find(es, 5), ReadTime);
    var endtime :- Optionally(Find(es, 6), ReadTime);
    var renewTill :- Optionally(Find(es, 7), ReadTime);
    var serverRealm :- Optionally(Find(es, 8), ReadString);
    var server :- Optionally(Find(es, 9), ReadName);
    Some(Info(key, clientRealm, client, flags, authtime, starttime, endtime, renewTill, serverRealm, server))
  }

  /** `SEQUENCE OF KrbCredInfo`, one after the other. */
  function ReadInfos(es: seq<Element>): Option<seq<Info>>
  {
    if es == [] then Some([])
    else if es[0].tag != 0x30 then None
    else
      var info :- ReadInfo(es[0].content);
      var rest :- ReadInfos(es[1..]);
      Some([info] + rest)
  }

  function ReadEncPart(s: seq<Byte>): Option<seq<Info>> {
    var part :- Sole(s, 0x7D);
    var es :- Members(part);
    var list :- Find(es, 0);
    var content :- Sole(list, 0x30);
    var infos :- Elements(content);
    ReadInfos(infos)
  }

  function ReadMessage(b: seq<Byte>): Option<Message> {
    var message :- Sole(b, 0x76);
    var es :- Members(message);
    var v :- Find(es, 0);
    var pvno :- ReadInteger(v);
    var t :- Find(es, 1);
    var msgType :- ReadInteger(t);
    var ts :- Find(es, 2);
    var tickets :- Sole(ts, 0x30);
    var d :- Find(es, 3);
    var data :- Members(d);
    var e :- Find(data, 0);
    var etype :- ReadInteger(e);
    var kvno :- Optionally(Find(data, 1), ReadInteger);
    var c :- Find(data, 2);
    var cipher :- ReadOctets(c);
    var infos :- ReadEncPart(cipher);
    Some(Message(pvno, msgType, tickets, etype, kvno, infos))
  }

  // ---- Reading back each part ---------------------------------------------------------

  lemma SoleOfTlv(tag: Byte, content: seq<Byte>)
    requires tag % 0x20 != 0x1F && |content| < USIZE
    ensures Sole(Tlv(tag, content), tag) == Some(content)
  {
    hide Tlv, Elements;
    var e := Element(tag, content);
    ElementsOfJoin([e]);
    assert [e][1..] == [];
    assert Join([e]) == Tlv(tag, content) + Join([]) == Tlv(tag, content);
  }

  lemma {:induction false} JoinSnoc(es: seq<Element>, e: Element)
    requires AllWritable(es) && Writable(e)
    ensures AllWritable(es + [e])
    ensures Join(es + [e]) == Join(es) + Tlv(e.tag, e.content)
  {
    hide Tlv;
    if es == [] {
      assert [e][1..] == [];
      assert Join([e]) == Tlv(e.tag, e.content) + Join([]);
      assert es + [e] == [e];
    } else {
      JoinSnoc(es[1..], e);
      assert (es + [e])[1..] == es[1..] + [e];
    }
  }

  lemma {:induction false} FindAt(es: seq<Element>, i: nat, n: nat)
    requires i < |es| && Ascending(es) && es[i].tag == 0xA0 + n
    ensures Find(es, n) == Some(es[i].content)
  {
    if i > 0 {
      FindAt(es[1..], i - 1, n);
    }
  }

  lemma {:induction false} FindNone(es: seq<Element>, n: nat)
    requires forall i :: 0 <= i < |es| ==> es[i].tag != 0xA0 + n
    ensures Find(es, n) == None
  {
    if es != [] {
      FindNone(es[1..], n);
    }
  }

  /** A SEQUENCE of two members reads back as those two. */
  lemma MembersOfTwo(m: nat, x: seq<Byte>, n: nat, y: seq<Byte>)
    requires m < n < 0x1F && |x| + |y| < USIZE - 100
    ensures var es := [Element(0xA0 + m, x), Element(0xA0 + n, y)];
            Members(Tlv(TAG_SEQUENCE, Ctx(m, x) + Ctx(n, y))) == Some(es)
    ensures var es := [Element(0xA0 + m, x), Element(0xA0 + n, y)];
            Find(es, m) == Some(x) && Find(es, n) == Some(y)
  {
    hide Tlv, Elements, Sole;
    var a, b := Element(0xA0 + m, x), Element(0xA0 + n, y);
    var es := [a, b];
    JoinSnoc([], a);
    assert [] + [a] == [a];
    JoinSnoc([a], b);
    assert [a] + [b] == es;
    assert Join(es) == Ctx(m, x) + Ctx(n, y);
    ElementsOfJoin(es);
    SoleOfTlv(TAG_SEQUENCE, Join(es));
    FindAt(es, 0, m);
    FindAt(es, 1, n);
  }

  lemma IntegerReadsBack(v: I64)
    requires v >= 0
    ensures ReadInteger(Integer(v)) == Some(v)
  {
    hide Tlv, Sole, IntegerContent, MinimalInteger, TwosValue;
    SoleOfTlv(TAG_INTEGER, IntegerContent(v));
    IntegerValue(v);
    IntegerIsMinimal(v);
  }

  lemma {:induction false} NamesReadBack(names: seq<seq<Byte>>)
    requires NamesWeight(names) < USIZE
    ensures exists es :: AllWritable(es) && Join(es) == Names(names) && Strings(es) == Some(names)
  {
    hide Tlv;
    if names == [] {
      assert Join([]) == Names(names);
      assert AllWritable([]) && Strings([]) == Some(names);
    } else {
      NamesReadBack(names[1..]);
      var rest :| AllWritable(rest) && Join(rest) == Names(names[1..]) && Strings(rest) == Some(names[1..]);
      var es := [Element(TAG_GENERAL_STRING, names[0])] + rest;
      assert es[1..] == rest;
      assert names == [names[0]] + names[1..];
      assert Strings(es) == Some(names);
    }
  }

  lemma NameReadsBack(p: Principal)
    requires NamesWeight(p.components) < USIZE - 200
    ensures ReadName(PrincipalName(p)) == Some(Name(p.nameType, p.components))
  {
    hide Tlv, Sole, Elements, Members, ReadInteger, Integer;
    var names := Names(p.components);
    MembersOfTwo(0, Integer(p.nameType), 1, Tlv(TAG_SEQUENCE, names));
    IntegerReadsBack(p.nameType);
    SoleOfTlv(TAG_SEQUENCE, names);
    NamesReadBack(p.components);
    var es :| AllWritable(es) && Join(es) == names && Strings(es) == Some(p.components);
    ElementsOfJoin(es);
  }

  /** The signed 32-bit number that four octets of a cache stand for. */
  function Int32(n: U32): int {
    if n < 0x8000_0000 then n else n - 0x1_0000_0000
  }

  /**
   A name type is an `Int32` (section 5.2.2 of RFC 4120), and the writer encodes the cache's octets
   as an unsigned number: the type survives exactly when it is not negative.
   */
  lemma NameTypeIsInt32(p: Principal)
    requires NamesWeight(p.components) < USIZE - 200
    ensures ReadName(PrincipalName(p)) == Some(Name(Int32(p.nameType), p.components)) <==> p.nameType < 0x8000_0000
  {
    hide PrincipalName, ReadName;
    NameReadsBack(p);
  }

  lemma KeyReadsBack(c: Credential)
    requires |c.key| < USIZE - 200
    ensures ReadKey(EncryptionKey(c)) == Some(Key(c.keytype, c.key))
  {
    hide Tlv, Sole, Elements, Members, ReadInteger, Integer;
    MembersOfTwo(0, Integer(c.keytype), 1, Tlv(TAG_OCTET_STRING, c.key));
    IntegerReadsBack(c.keytype);
    SoleOfTlv(TAG_OCTET_STRING, c.key);
  }

  lemma FlagsReadBack(flags: U32)
    ensures ReadFlags(TicketFlags(flags)) == Some(flags)
  {
    hide Tlv, Sole;
    PowersOf256();
    BeRoundTrip(flags, 4);
    SoleOfTlv(TAG_BIT_STRING, [0] + BeBytes(flags, 4));
    assert ([0] + BeBytes(flags, 4))[1..] == BeBytes(flags, 4);
  }

  lemma {:induction false} PaddedReadsBack(n: nat, width: nat)
    ensures Number(Padded(n, width)) == n && Digits(Padded(n, width))
    decreases n, width
  {
    if n != 0 || width != 0 {
      hide Number, Digits, Padded;
      var w, tenth, last := if width == 0 then 0 else width - 1, n / 10, n % 10;
      PaddedReadsBack(tenth, w);
      PaddedSnoc(n, width);
      DigitSnoc(Padded(tenth, w), tenth, last);
      Tenths(n, tenth, last);
    }
  }

  lemma Tenths(n: nat, tenth: nat, last: nat)
    requires tenth == n / 10 && last == n % 10
    ensures n == 10 * tenth + last
  {
  }

  lemma PaddedSnoc(n: nat, width: nat)
    requires n != 0 || width != 0
    ensures Padded(n, width) == Padded(n / 10, if width == 0 then 0 else width - 1) + [0x30 + n % 10]
  {
  }

  lemma DigitSnoc(s: seq<Byte>, v: nat, d: nat)
    requires Digits(s) && Number(s) == v && d < 10
    ensures Digits(s + [0x30 + d]) && Number(s + [0x30 + d]) == 10 * v + d
  {
    assert (s + [0x30 + d])[..|s|] == s;
  }

  lemma TextPieces(y: seq<Byte>, mo: seq<Byte>, d: seq<Byte>, h: seq<Byte>, mi: seq<Byte>, s: seq<Byte>)
    requires |y| == 4 && |mo| == |d| == |h| == |mi| == |s| == 2
    requires Digits(y) && Digits(mo) && Digits(d) && Digits(h) && Digits(mi) && Digits(s)
    ensures var t := y + mo + d + h + mi + s + [0x5A];
            && |t| == 15 && t[14] == 0x5A && Digits(t[..14])
            && t[..4] == y && t[4..6] == mo && t[6..8] == d
            && t[8..10] == h && t[10..12] == mi && t[12..14] == s
  {
    var t := y + mo + d + h + mi + s + [0x5A];
    assert t[..14] == y + mo + d + h + mi + s;
  }

  /** Every 32-bit time is written as a `KerberosTime` that means the same second. */
  lemma TimeReadsBack(unix: U32)
    ensures TextTime(TimeText(unix)) == Some(unix)
    ensures ReadTime(KerberosTime(unix)) == Some(unix)
  {
    hide Tlv, Sole, Padded, Number, Digits, Calendar.CivilFromDays, Calendar.DayNumber;
    var d := Calendar.CivilFromDays(unix / 86_400);
    var s := unix % 86_400;
    YearRange(unix);
    Calendar.CivilIsDayNumber(unix / 86_400);
    Widths();
    TextField(d.year, 4);
    TextField(d.month, 2);
    TextField(d.day, 2);
    TextField(s / 3600, 2);
    TextField((s / 60) % 60, 2);
    TextField(s % 60, 2);
    TextPieces(Padded(d.year, 4), Padded(d.month, 2), Padded(d.day, 2),
               Padded(s / 3600, 2), Padded((s / 60) % 60, 2), Padded(s % 60, 2));
    SoleOfTlv(TAG_GENERALIZED_TIME, TimeText(unix));
    ClockParts(s);
  }

  lemma TextField(n: nat, width: nat)
    requires n < Pow10(width)
    ensures |Padded(n, width)| == width && Number(Padded(n, width)) == n && Digits(Padded(n, width))
  {
    PaddedWidth(n, width);
    PaddedReadsBack(n, width);
  }

  lemma ClockParts(s: nat)
    requires s < 86_400
    ensures s == 3600 * (s / 3600) + 60 * ((s / 60) % 60) + s % 60
  {
    assert s / 60 == 60 * (s / 3600) + (s / 60) % 60;
  }

  // ---- Reading back a KrbCredInfo -------------------------------------------------------

  ghost function ClientElements(c: Credential): seq<Element>
    requires Fits(c)
  {
    [Element(0xA0, EncryptionKey(c)), Element(0xA1, GeneralString(c.client.realm)),
     Element(0xA2, PrincipalName(c.client)), Element(0xA3, TicketFlags(c.flags))]
  }

  ghost function StartElements(c: Credential): seq<Element> {
    [Element(0xA4, KerberosTime(c.authtime))]
    + (if c.starttime != 0 then [Element(0xA5, KerberosTime(c.starttime))] else [])
  }

  ghost function EndElements(c: Credential): seq<Element> {
    [Element(0xA6, KerberosTime(c.endtime))]
    + (if c.renewTill != 0 then [Element(0xA7, KerberosTime(c.renewTill))] else [])
  }

  ghost function ServerElements(c: Credential): seq<Element>
    requires Fits(c)
  {
    [Element(0xA8, GeneralString(c.server.realm)), Element(0xA9, PrincipalName(c.server))]
  }

  ghost function InfoElements(c: Credential): seq<Element>
    requires Fits(c)
  {
    ClientElements(c) + StartElements(c) + EndElements(c) + ServerElements(c)
  }

  lemma {:induction false} JoinAppend(a: seq<Element>, b: seq<Element>)
    requires AllWritable(a) && AllWritable(b)
    ensures AllWritable(a + b) && Join(a + b) == Join(a) + Join(b)
  {
    hide Tlv;
    if a == [] {
      assert a + b == b;
    } else {
      JoinAppend(a[1..], b);
      assert (a + b)[1..] == a[1..] + b && (a + b)[0] == a[0];
      var first := Tlv(a[0].tag, a[0].content);
      assert first + (Join(a[1..]) + Join(b)) == first + Join(a[1..]) + Join(b);
    }
  }

  lemma JoinOne(e: Element)
    requires Writable(e)
    ensures AllWritable([e]) && Join([e]) == Tlv(e.tag, e.content)
  {
    JoinSnoc([], e);
    assert [] + [e] == [e];
  }

  lemma ClientJoin(c: Credential)
    requires Fits(c)
    ensures AllWritable(ClientElements(c)) && Join(ClientElements(c)) == ClientMembers(c)
  {
    hide Tlv, EncryptionKey, GeneralString, PrincipalName, TicketFlags;
    var es := ClientElements(c);
    JoinOne(es[0]);
    JoinSnoc(es[..1], es[1]);
    JoinSnoc(es[..2], es[2]);
    JoinSnoc(es[..3], es[3]);
    assert es[..1] == [es[0]] && es[..2] == es[..1] + [es[1]];
    assert es[..3] == es[..2] + [es[2]] && es == es[..3] + [es[3]];
  }

  lemma TimeJoin(c: Credential)
    ensures AllWritable(StartElements(c) + EndElements(c))
    ensures Join(StartElements(c) + EndElements(c)) == TimeMembers(c)
  {
    hide Tlv, KerberosTime;
    var a, e := Element(0xA4, KerberosTime(c.authtime)), Element(0xA6, KerberosTime(c.endtime));
    JoinOne(a);
    JoinOne(e);
    if c.starttime != 0 {
      JoinSnoc([a], Element(0xA5, KerberosTime(c.starttime)));
    }
    if c.renewTill != 0 {
      JoinSnoc([e], Element(0xA7, KerberosTime(c.renewTill)));
    }
    JoinAppend(StartElements(c), EndElements(c));
  }

  lemma ServerJoin(c: Credential)
    requires Fits(c)
    ensures AllWritable(ServerElements(c)) && Join(ServerElements(c)) == ServerMembers(c)
  {
    hide Tlv, GeneralString, PrincipalName;
    var es := ServerElements(c);
    JoinOne(es[0]);
    JoinSnoc([es[0]], es[1]);
    assert es == [es[0]] + [es[1]];
  }

  lemma InfoJoin(c: Credential)
    requires Fits(c)
    ensures AllWritable(InfoElements(c)) && Join(InfoElements(c)) == InfoMembers(c)
  {
    hide ClientElements, StartElements, EndElements, ServerElements, ClientMembers, TimeMembers, ServerMembers, Join;
    ClientJoin(c);
    TimeJoin(c);
    ServerJoin(c);
    var times := StartElements(c) + EndElements(c);
    JoinAppend(ClientElements(c), times);
    JoinAppend(ClientElements(c) + times, ServerElements(c));
    assert InfoElements(c) == ClientElements(c) + times + ServerElements(c);
  }

  /** What the message should say about the credential. */
  ghost function ExpectedInfo(c: Credential): Info {
    Info(Key(c.keytype, c.key), Some(c.client.realm), Some(Name(c.client.nameType, c.client.components)),
         Some(c.flags), Some(c.authtime), if c.starttime == 0 then None else Some(c.starttime),
         Some(c.endtime), if c.renewTill == 0 then None else Some(c.renewTill),
         Some(c.server.realm), Some(Name(c.server.nameType, c.server.components)))
  }

  ghost function Expected(c: Credential): Message {
    Message(5, 22, c.ticket, 0, None, [ExpectedInfo(c)])
  }

  lemma InfoAscending(c: Credential)
    requires Fits(c)
    ensures Ascending(InfoElements(c))
  {
    hide EncryptionKey, GeneralString, PrincipalName, TicketFlags, KerberosTime;
  }

  lemma InfoTags(c: Credential)
    requires Fits(c)
    ensures var es := InfoElements(c);
            && Ascending(es)
            && Find(es, 0) == Some(EncryptionKey(c))
            && Find(es, 1) == Some(GeneralString(c.client.realm))
            && Find(es, 2) == Some(PrincipalName(c.client))
            && Find(es, 3) == Some(TicketFlags(c.flags))
            && Find(es, 4) == Some(KerberosTime(c.authtime))
            && Find(es, 5) == (if c.starttime == 0 then None else Some(KerberosTime(c.starttime)))
            && Find(es, 6) == Some(KerberosTime(c.endtime))
            && Find(es, 7) == (if c.renewTill == 0 then None else Some(KerberosTime(c.renewTill)))
            && Find(es, 8) == Some(GeneralString(c.server.realm))
            && Find(es, 9) == Some(PrincipalName(c.server))
  {
    hide Ascending, Find, EncryptionKey, GeneralString, PrincipalName, TicketFlags, KerberosTime;
    InfoAscending(c);
    var es := InfoElements(c);
    var s := if c.starttime == 0 then 0 else 1;
    var r := if c.renewTill == 0 then 0 else 1;
    assert |es| == 8 + s + r;
    FindAt(es, 0, 0);
    FindAt(es, 1, 1);
    FindAt(es, 2, 2);
    FindAt(es, 3, 3);
    FindAt(es, 4, 4);
    if s == 0 { FindNone(es, 5); } else { FindAt(es, 5, 5); }
    FindAt(es, 5 + s, 6);
    if r == 0 { FindNone(es, 7); } else { FindAt(es, 6 + s, 7); }
    FindAt(es, 6 + s + r, 8);
    FindAt(es, 7 + s + r, 9);
  }

  lemma InfoReadsBack(c: Credential)
    requires Fits(c)
    ensures ReadInfo(InfoMembers(c)) == Some(ExpectedInfo(c))
  {
    hide Elements, Join, InfoElements, InfoMembers, Ascending, Find, EncryptionKey, GeneralString, PrincipalName,
         TicketFlags, KerberosTime,
         ReadKey, ReadString, ReadName, ReadFlags, ReadTime;
    InfoJoin(c);
    ElementsOfJoin(InfoElements(c));
    InfoTags(c);
    KeyReadsBack(c);
    StringReadsBack(c.client.realm);
    StringReadsBack(c.server.realm);
    NameReadsBack(c.client);
    NameReadsBack(c.server);
    FlagsReadBack(c.flags);
    TimeReadsBack(c.authtime);
    TimeReadsBack(c.starttime);
    TimeReadsBack(c.endtime);
    TimeReadsBack(c.renewTill);
  }

  lemma StringReadsBack(s: seq<Byte>)
    requires |s| < USIZE
    ensures ReadString(GeneralString(s)) == Some(s)
  {
    SoleOfTlv(TAG_GENERAL_STRING, s);
  }

  // ---- Reading back the message ---------------------------------------------------------

  lemma MembersOfOne(n: nat, x: seq<Byte>)
    requires n < 0x1F && |x| < USIZE - 100
    ensures Members(Tlv(TAG_SEQUENCE, Ctx(n, x))) == Some([Element(0xA0 + n, x)])
    ensures Find([Element(0xA0 + n, x)], n) == Some(x)
  {
    hide Tlv, Elements, Sole;
    var e := Element(0xA0 + n, x);
    JoinOne(e);
    ElementsOfJoin([e]);
    SoleOfTlv(TAG_SEQUENCE, Ctx(n, x));
    FindAt([e], 0, n);
  }

  lemma EncPartReadsBack(c: Credential)
    requires Fits(c)
    ensures ReadEncPart(EncPart(c)) == Some([ExpectedInfo(c)])
  {
    hide Tlv, Elements, Sole, Members, Find, ReadInfo, InfoMembers, ExpectedInfo;
    var infos := CredInfo(c);
    var list := Tlv(TAG_SEQUENCE, infos);
    SoleOfTlv(App(29), Tlv(TAG_SEQUENCE, Ctx(0, list)));
    MembersOfOne(0, list);
    SoleOfTlv(TAG_SEQUENCE, infos);
    var e := Element(TAG_SEQUENCE, InfoMembers(c));
    JoinOne(e);
    ElementsOfJoin([e]);
    InfoReadsBack(c);
    assert [e][1..] == [];
    assert [ExpectedInfo(c)] + [] == [ExpectedInfo(c)];
    assert ReadInfos([]) == Some([]);
    assert ReadInfos([e]) == Some([ExpectedInfo(c)]);
  }

  ghost function MessageElements(c: Credential): seq<Element>
    requires Fits(c)
  {
    [Element(0xA0, Integer(5)), Element(0xA1, Integer(22)),
     Element(0xA2, Tlv(TAG_SEQUENCE, c.ticket)), Element(0xA3, EncryptedData(c))]
  }

  lemma MessageJoin(c: Credential)
    requires Fits(c)
    ensures AllWritable(MessageElements(c)) && Join(MessageElements(c)) == MessageMembers(c)
  {
    hide Tlv, Integer, EncryptedData;
    var es := MessageElements(c);
    JoinOne(es[0]);
    JoinSnoc(es[..1], es[1]);
    JoinSnoc(es[..2], es[2]);
    JoinSnoc(es[..3], es[3]);
    assert es[..1] == [es[0]] && es[..2] == es[..1] + [es[1]];
    assert es[..3] == es[..2] + [es[2]] && es == es[..3] + [es[3]];
  }

  /**
   Reading the message by section 5.8.1 of RFC 4120 recovers the credential: its ticket octets, key,
   realms, names, flags and times, with a zero start or renew-till read back as absent.
   */
  lemma MessageReadsBack(c: Credential)
    requires Fits(c)
    ensures ReadMessage(KrbCred(c)) == Some(Expected(c))
  {
    hide Tlv, Elements, Join, Integer, EncPart, MessageMembers, Ascending, Find, ReadInteger, ReadEncPart, ExpectedInfo;
    var es := MessageElements(c);
    MessageJoin(c);
    FourMembers(es);
    SoleOfTlv(App(22), Tlv(TAG_SEQUENCE, MessageMembers(c)));
    SoleOfTlv(TAG_SEQUENCE, MessageMembers(c));
    ElementsOfJoin(es);
    IntegerReadsBack(5);
    IntegerReadsBack(22);
    IntegerReadsBack(0);
    SoleOfTlv(TAG_SEQUENCE, c.ticket);
    var cipher := Tlv(TAG_OCTET_STRING, EncPart(c));
    assert EncryptedData(c) == Tlv(TAG_SEQUENCE, Ctx(0, Integer(0)) + Ctx(2, cipher));
    MembersOfTwo(0, Integer(0), 2, cipher);
    FindNone([Element(0xA0, Integer(0)), Element(0xA2, cipher)], 1);
    SoleOfTlv(TAG_OCTET_STRING, EncPart(c));
    EncPartReadsBack(c);
  }

  /** Four members tagged [0] to [3]. */
  lemma FourMembers(es: seq<Element>)
    requires |es| == 4 && es[0].tag == 0xA0 && es[1].tag == 0xA1 && es[2].tag == 0xA2 && es[3].tag == 0xA3
    ensures Ascending(es)
    ensures Find(es, 0) == Some(es[0].content) && Find(es, 1) == Some(es[1].content)
    ensures Find(es, 2) == Some(es[2].content) && Find(es, 3) == Some(es[3].content)
  {
    FindAt(es, 0, 0);
    FindAt(es, 1, 1);
    FindAt(es, 2, 2);
    FindAt(es, 3, 3);
  }
}
