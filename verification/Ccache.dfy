/**
 The MIT credential cache, version 4: its layout as an encoder, and the same layout as a
 parsing function.

 The encoder is written as `PutX(x, rest)`, the octets of `x` followed by `rest`, and a
 parser returns what it read together with the octets that follow it.
 */
module Ccache {
  import opened Wrappers
  import opened Bytes
  import Utf8

  type Blob = s: seq<Byte> | |s| < 0x1_0000_0000
  type Blobs = s: seq<Blob> | |s| < 0x1_0000_0000
  type TypedList = s: seq<Typed> | |s| < 0x1_0000_0000
  type Header = s: seq<Byte> | |s| < 0x1_0000

  const VERSION_V4: U16 := 0x0504

  // ---- What the file holds ----------------------------------------------------

  datatype RawPrincipal = RawPrincipal(nameType: U32, realm: Blob, components: Blobs)

  /** An address or an authorization-data entry. */
  datatype Typed = Typed(kind: U16, data: Blob)

  datatype RawCredential = RawCredential(
    client: RawPrincipal, server: RawPrincipal,
    keytype: U16, key: Blob,
    authtime: U32, starttime: U32, endtime: U32, renewTill: U32,
    isSkey: Byte, flags: U32,
    addresses: TypedList, authdata: TypedList,
    ticket: Blob, secondTicket: Blob)

  datatype RawCache = RawCache(header: Header, principal: RawPrincipal, creds: seq<RawCredential>)

  // ---- What the client keeps of it --------------------------------------------

  datatype Principal = Principal(nameType: U32, realm: seq<Byte>, components: seq<seq<Byte>>)

  datatype Credential = Credential(
    client: Principal, server: Principal,
    keytype: U16, key: seq<Byte>,
    authtime: U32, starttime: U32, endtime: U32, renewTill: U32,
    flags: U32, ticket: seq<Byte>)

  function LossyAll(ss: seq<seq<Byte>>): (r: seq<seq<Byte>>)
    ensures |r| == |ss|
    ensures forall i :: 0 <= i < |ss| ==> r[i] == Utf8.Lossy(ss[i])
  {
    seq(|ss|, i requires 0 <= i < |ss| => Utf8.Lossy(ss[i]))
  }

  function PrincipalView(p: RawPrincipal): Principal {
    Principal(p.nameType, Utf8.Lossy(p.realm), LossyAll(p.components))
  }

  function View(c: RawCredential): Credential {
    Credential(PrincipalView(c.client), PrincipalView(c.server), c.keytype, c.key,
               c.authtime, c.starttime, c.endtime, c.renewTill, c.flags, c.ticket)
  }

  function Views(cs: seq<RawCredential>): (r: seq<Credential>)
    ensures |r| == |cs|
    ensures forall i :: 0 <= i < |cs| ==> r[i] == View(cs[i])
  {
    seq(|cs|, i requires 0 <= i < |cs| => View(cs[i]))
  }

  /** A principal as the file has it, its names decoded. */
  ghost predicate ShowsPrincipal(p: Principal, raw: RawPrincipal) {
    && p.nameType == raw.nameType && p.realm == Utf8.Lossy(raw.realm)
    && |p.components| == |raw.components|
    && forall i :: 0 <= i < |raw.components| ==> p.components[i] == Utf8.Lossy(raw.components[i])
  }

  /** Field by field what the file says of the credential. */
  ghost predicate Shows(c: Credential, raw: RawCredential) {
    && ShowsPrincipal(c.client, raw.client) && ShowsPrincipal(c.server, raw.server)
    && c.keytype == raw.keytype && c.key == raw.key
    && c.authtime == raw.authtime && c.starttime == raw.starttime
    && c.endtime == raw.endtime && c.renewTill == raw.renewTill
    && c.flags == raw.flags && c.ticket == raw.ticket
  }

  lemma ViewShows(raw: RawCredential)
    ensures Shows(View(raw), raw)
  {
  }

  // ---- The layout, written ----------------------------------------------------

  function PutU16(n: U16, rest: seq<Byte>): seq<Byte> { BeBytes(n, 2) + rest }

  function PutU32(n: U32, rest: seq<Byte>): seq<Byte> { BeBytes(n, 4) + rest }

  function PutBlob(s: Blob, rest: seq<Byte>): seq<Byte> { PutU32(|s|, s + rest) }

  function PutBlobs(ss: seq<Blob>, rest: seq<Byte>): seq<Byte> {
    if ss == [] then rest else PutBlob(ss[0], PutBlobs(ss[1..], rest))
  }

  function PutTypedItems(ts: seq<Typed>, rest: seq<Byte>): seq<Byte> {
    if ts == [] then rest else PutU16(ts[0].kind, PutBlob(ts[0].data, PutTypedItems(ts[1..], rest)))
  }

  function PutTypedList(ts: TypedList, rest: seq<Byte>): seq<Byte> {
    PutU32(|ts|, PutTypedItems(ts, rest))
  }

  function PutPrincipal(p: RawPrincipal, rest: seq<Byte>): seq<Byte> {
    PutU32(p.nameType, PutU32(|p.components|, PutBlob(p.realm, PutBlobs(p.components, rest))))
  }

  /** Everything of a credential after its two principals. */
  function PutBody(c: RawCredential, rest: seq<Byte>): seq<Byte> {
    PutU16(c.keytype, PutBlob(c.key,
      PutU32(c.authtime, PutU32(c.starttime, PutU32(c.endtime, PutU32(c.renewTill, PutTail(c, rest)))))))
  }

  function PutTail(c: RawCredential, rest: seq<Byte>): seq<Byte> {
    [c.isSkey] + PutU32(c.flags,
      PutTypedList(c.addresses, PutTypedList(c.authdata,
        PutBlob(c.ticket, PutBlob(c.secondTicket, rest)))))
  }

  function PutCredential(c: RawCredential, rest: seq<Byte>): seq<Byte> {
    PutPrincipal(c.client, PutPrincipal(c.server, PutBody(c, rest)))
  }

  function PutCredentials(cs: seq<RawCredential>, rest: seq<Byte>): seq<Byte> {
    if cs == [] then rest else PutCredential(cs[0], PutCredentials(cs[1..], rest))
  }

  /** The whole file. */
  function Encode(c: RawCache): seq<Byte> {
    PutU16(0x0504, PutU16(|c.header|, c.header + PutPrincipal(c.principal, PutCredentials(c.creds, []))))
  }

  // ---- The layout, read -------------------------------------------------------

  datatype Parse<+T> = Got(value: T, rest: seq<Byte>) | Short {
    predicate IsFailure() { Short? }
    function PropagateFailure<U>(): Parse<U> requires Short? { Short }
    function Extract(): (T, seq<Byte>) requires Got? { (value, rest) }
  }

  function ParseTake(n: nat, s: seq<Byte>): (r: Parse<seq<Byte>>)
    ensures r.Got? ==> r.value + r.rest == s && |r.value| == n
    ensures r.Got? <==> n <= |s|
  {
    if n <= |s| then Got(s[..n], s[n..]) else Short
  }

  function ParseU16(s: seq<Byte>): Parse<U16> {
    var (v, s) :- ParseTake(2, s);
    BeValueBound(v); PowersOf256();
    Got(BeValue(v), s)
  }

  function ParseU32(s: seq<Byte>): (r: Parse<U32>)
    ensures r.Got? ==> |r.rest| + 4 == |s|
  {
    var (v, s) :- ParseTake(4, s);
    BeValueBound(v); PowersOf256();
    Got(BeValue(v), s)
  }

  function ParseBlob(s: seq<Byte>): (r: Parse<Blob>)
    ensures r.Got? ==> |r.rest| <= |s|
  {
    var (n, s) :- ParseU32(s);
    ParseTake(n, s)
  }

  function ParseBlobs(n: nat, s: seq<Byte>): (r: Parse<seq<Blob>>)
    ensures r.Got? ==> |r.value| == n && |r.rest| <= |s|
  {
    if n == 0 then Got([], s)
    else
      var (x, s) :- ParseBlob(s);
      var (xs, s) :- ParseBlobs(n - 1, s);
      Got([x] + xs, s)
  }

  function ParseTypedItems(n: nat, s: seq<Byte>): (r: Parse<seq<Typed>>)
    ensures r.Got? ==> |r.value| == n && |r.rest| <= |s|
  {
    if n == 0 then Got([], s)
    else
      var (kind, s) :- ParseU16(s);
      var (data, s) :- ParseBlob(s);
      var (ts, s) :- ParseTypedItems(n - 1, s);
      Got([Typed(kind, data)] + ts, s)
  }

  function ParseTypedList(s: seq<Byte>): (r: Parse<TypedList>)
    ensures r.Got? ==> |r.rest| <= |s|
  {
    var (n, s) :- ParseU32(s);
    ParseTypedItems(n, s)
  }

  function ParsePrincipal(s: seq<Byte>): (r: Parse<RawPrincipal>)
    ensures r.Got? ==> |r.rest| < |s|
  {
    var (nameType, s) :- ParseU32(s);
    var (n, s) :- ParseU32(s);
    var (realm, s) :- ParseBlob(s);
    var (components, s) :- ParseBlobs(n, s);
    Got(RawPrincipal(nameType, realm, components), s)
  }

  function ParseBody(client: RawPrincipal, server: RawPrincipal, s: seq<Byte>): (r: Parse<RawCredential>)
    ensures r.Got? ==> |r.rest| <= |s| && r.value.client == client && r.value.server == server
  {
    var (keytype, s) :- ParseU16(s);
    var (key, s) :- ParseBlob(s);
    var (authtime, s) :- ParseU32(s);
    var (starttime, s) :- ParseU32(s);
    var (endtime, s) :- ParseU32(s);
    var (renewTill, s) :- ParseU32(s);
    var (skey, s) :- ParseTake(1, s);
    var (flags, s) :- ParseU32(s);
    var (addresses, s) :- ParseTypedList(s);
    var (authdata, s) :- ParseTypedList(s);
    var (ticket, s) :- ParseBlob(s);
    var (secondTicket, s) :- ParseBlob(s);
    Got(RawCredential(client, server, keytype, key, authtime, starttime, endtime, renewTill,
                      skey[0], flags, addresses, authdata, ticket, secondTicket), s)
  }

  function ParseCredential(s: seq<Byte>): (r: Parse<RawCredential>)
    ensures r.Got? ==> |r.rest| < |s|
  {
    var (client, s) :- ParsePrincipal(s);
    var (server, s) :- ParsePrincipal(s);
    ParseBody(client, server, s)
  }

  /** Credentials to the end of the file; `Short` when the last one is cut. */
  function ParseCredentials(s: seq<Byte>): Parse<seq<RawCredential>>
    decreases |s|
  {
    if s == [] then Got([], [])
    else
      var (c, s) :- ParseCredential(s);
      var (cs, s) :- ParseCredentials(s);
      Got([c] + cs, s)
  }

  datatype ReadError = Truncated | UnsupportedVersion(version: U16)

  /** The header and the default principal, which the client reads and drops. */
  function ParsePreamble(s: seq<Byte>): Parse<RawCache> {
    var (n, s) :- ParseU16(s);
    var (header, s) :- ParseTake(n, s);
    var (principal, s) :- ParsePrincipal(s);
    Got(RawCache(header, principal, []), s)
  }

  function Decode(b: seq<Byte>): Result<RawCache, ReadError> {
    match ParseU16(b)
    case Short => Err(Truncated)
    case Got(version, s) =>
      if version != VERSION_V4 then Err(UnsupportedVersion(version))
      else match ParsePreamble(s)
        case Short => Err(Truncated)
        case Got(cache, s) =>
          match ParseCredentials(s)
          case Short => Err(Truncated)
          case Got(creds, _) => Ok(cache.(creds := creds))
  }

  // ---- Reading is the exact inverse of writing ---------------------------------

  lemma U16RoundTrip(n: U16, rest: seq<Byte>)
    ensures ParseU16(PutU16(n, rest)) == Got(n, rest)
  {
    PowersOf256();
    BeRoundTrip(n, 2);
    var s := PutU16(n, rest);
    assert s[..2] == BeBytes(n, 2) && s[2..] == rest;
  }

  lemma U16Sound(s: seq<Byte>)
    ensures ParseU16(s).Got? ==> s == PutU16(ParseU16(s).value, ParseU16(s).rest)
  {
    if |s| >= 2 {
      BeInverse(s[..2]);
    }
  }

  lemma U32RoundTrip(n: U32, rest: seq<Byte>)
    ensures ParseU32(PutU32(n, rest)) == Got(n, rest)
  {
    PowersOf256();
    BeRoundTrip(n, 4);
    var s := PutU32(n, rest);
    assert s[..4] == BeBytes(n, 4) && s[4..] == rest;
  }

  lemma U32Sound(s: seq<Byte>)
    ensures ParseU32(s).Got? ==> s == PutU32(ParseU32(s).value, ParseU32(s).rest)
  {
    if |s| >= 4 {
      BeInverse(s[..4]);
    }
  }

  lemma BlobRoundTrip(x: Blob, rest: seq<Byte>)
    ensures ParseBlob(PutBlob(x, rest)) == Got(x, rest)
  {
    U32RoundTrip(|x|, x + rest);
    assert (x + rest)[..|x|] == x && (x + rest)[|x|..] == rest;
  }

  lemma BlobSound(s: seq<Byte>)
    ensures ParseBlob(s).Got? ==> s == PutBlob(ParseBlob(s).value, ParseBlob(s).rest)
  {
    U32Sound(s);
  }

  lemma {:induction false} BlobsRoundTrip(xs: seq<Blob>, rest: seq<Byte>)
    ensures ParseBlobs(|xs|, PutBlobs(xs, rest)) == Got(xs, rest)
  {
    if xs != [] {
      BlobRoundTrip(xs[0], PutBlobs(xs[1..], rest));
      BlobsRoundTrip(xs[1..], rest);
      assert xs == [xs[0]] + xs[1..];
    }
  }

  lemma {:induction false} BlobsSound(n: nat, s: seq<Byte>)
    ensures ParseBlobs(n, s).Got? ==> s == PutBlobs(ParseBlobs(n, s).value, ParseBlobs(n, s).rest)
  {
    if n > 0 && ParseBlobs(n, s).Got? {
      BlobSound(s);
      var tail := ParseBlobs(n - 1, ParseBlob(s).rest);
      BlobsSound(n - 1, ParseBlob(s).rest);
      assert ParseBlobs(n, s).value[1..] == tail.value;
    }
  }

  lemma {:induction false} TypedItemsRoundTrip(ts: seq<Typed>, rest: seq<Byte>)
    ensures ParseTypedItems(|ts|, PutTypedItems(ts, rest)) == Got(ts, rest)
  {
    if ts != [] {
      var after := PutTypedItems(ts[1..], rest);
      U16RoundTrip(ts[0].kind, PutBlob(ts[0].data, after));
      BlobRoundTrip(ts[0].data, after);
      TypedItemsRoundTrip(ts[1..], rest);
      assert ts == [ts[0]] + ts[1..];
    }
  }

  lemma {:induction false} TypedItemsSound(n: nat, s: seq<Byte>)
    ensures ParseTypedItems(n, s).Got? ==>
              s == PutTypedItems(ParseTypedItems(n, s).value, ParseTypedItems(n, s).rest)
  {
    hide ParseU16, ParseBlob, PutU16, PutBlob;
    if n > 0 && ParseTypedItems(n, s).Got? {
      U16Sound(s);
      var s1 := ParseU16(s).rest;
      BlobSound(s1);
      var s2 := ParseBlob(s1).rest;
      TypedItemsSound(n - 1, s2);
      assert ParseTypedItems(n, s).value[1..] == ParseTypedItems(n - 1, s2).value;
    }
  }

  lemma TypedListRoundTrip(ts: TypedList, rest: seq<Byte>)
    ensures ParseTypedList(PutTypedList(ts, rest)) == Got(ts, rest)
  {
    U32RoundTrip(|ts|, PutTypedItems(ts, rest));
    TypedItemsRoundTrip(ts, rest);
  }

  lemma TypedListSound(s: seq<Byte>)
    ensures ParseTypedList(s).Got? ==> s == PutTypedList(ParseTypedList(s).value, ParseTypedList(s).rest)
  {
    U32Sound(s);
    if ParseTypedList(s).Got? {
      TypedItemsSound(ParseU32(s).value, ParseU32(s).rest);
    }
  }

  lemma PrincipalRoundTrip(p: RawPrincipal, rest: seq<Byte>)
    ensures ParsePrincipal(PutPrincipal(p, rest)) == Got(p, rest)
  {
    var s3 := PutBlobs(p.components, rest);
    var s2 := PutBlob(p.realm, s3);
    var s1 := PutU32(|p.components|, s2);
    U32RoundTrip(p.nameType, s1);
    U32RoundTrip(|p.components|, s2);
    BlobRoundTrip(p.realm, s3);
    BlobsRoundTrip(p.components, rest);
  }

  lemma PrincipalSound(s: seq<Byte>)
    ensures ParsePrincipal(s).Got? ==> s == PutPrincipal(ParsePrincipal(s).value, ParsePrincipal(s).rest)
  {
    if ParsePrincipal(s).Got? {
      U32Sound(s);
      var s1 := ParseU32(s).rest;
      U32Sound(s1);
      var s2 := ParseU32(s1).rest;
      BlobSound(s2);
      BlobsSound(ParseU32(s1).value, ParseBlob(s2).rest);
    }
  }

  lemma BodyRoundTrip(c: RawCredential, rest: seq<Byte>)
    ensures ParseBody(c.client, c.server, PutBody(c, rest)) == Got(c, rest)
  {
    hide ParseU16, ParseU32, ParseBlob, ParseTypedList, PutU16, PutU32, PutBlob, PutTypedList;
    var s11 := PutBlob(c.secondTicket, rest);
    var s10 := PutBlob(c.ticket, s11);
    var s9 := PutTypedList(c.authdata, s10);
    var s8 := PutTypedList(c.addresses, s9);
    var s7 := PutU32(c.flags, s8);
    var s6 := [c.isSkey] + s7;
    var s5 := PutU32(c.renewTill, s6);
    var s4 := PutU32(c.endtime, s5);
    var s3 := PutU32(c.starttime, s4);
    var s2 := PutU32(c.authtime, s3);
    var s1 := PutBlob(c.key, s2);
    U16RoundTrip(c.keytype, s1);
    BlobRoundTrip(c.key, s2);
    U32RoundTrip(c.authtime, s3);
    U32RoundTrip(c.starttime, s4);
    U32RoundTrip(c.endtime, s5);
    U32RoundTrip(c.renewTill, s6);
    assert ParseTake(1, s6) == Got([c.isSkey], s7);
    U32RoundTrip(c.flags, s8);
    TypedListRoundTrip(c.addresses, s9);
    TypedListRoundTrip(c.authdata, s10);
    BlobRoundTrip(c.ticket, s11);
    BlobRoundTrip(c.secondTicket, rest);
  }

  lemma BodySound(client: RawPrincipal, server: RawPrincipal, s: seq<Byte>)
    ensures ParseBody(client, server, s).Got? ==>
              s == PutBody(ParseBody(client, server, s).value, ParseBody(client, server, s).rest)
  {
    hide ParseU16, ParseU32, ParseBlob, ParseTypedList, PutU16, PutU32, PutBlob, PutTypedList;
    if ParseBody(client, server, s).Got? {
      U16Sound(s);
      var s1 := ParseU16(s).rest;
      BlobSound(s1);
      var s2 := ParseBlob(s1).rest;
      U32Sound(s2);
      var s3 := ParseU32(s2).rest;
      U32Sound(s3);
      var s4 := ParseU32(s3).rest;
      U32Sound(s4);
      var s5 := ParseU32(s4).rest;
      U32Sound(s5);
      var s6 := ParseU32(s5).rest;
      var s7 := ParseTake(1, s6).rest;
      assert s6 == [s6[0]] + s7;
      U32Sound(s7);
      var s8 := ParseU32(s7).rest;
      TypedListSound(s8);
      var s9 := ParseTypedList(s8).rest;
      TypedListSound(s9);
      var s10 := ParseTypedList(s9).rest;
      BlobSound(s10);
      BlobSound(ParseBlob(s10).rest);
    }
  }

  lemma CredentialRoundTrip(c: RawCredential, rest: seq<Byte>)
    ensures ParseCredential(PutCredential(c, rest)) == Got(c, rest)
  {
    PrincipalRoundTrip(c.client, PutPrincipal(c.server, PutBody(c, rest)));
    PrincipalRoundTrip(c.server, PutBody(c, rest));
    BodyRoundTrip(c, rest);
  }

  lemma CredentialSound(s: seq<Byte>)
    ensures ParseCredential(s).Got? ==> s == PutCredential(ParseCredential(s).value, ParseCredential(s).rest)
  {
    hide ParsePrincipal, ParseBody, PutPrincipal, PutBody;
    if ParseCredential(s).Got? {
      PrincipalSound(s);
      var client := ParsePrincipal(s);
      PrincipalSound(client.rest);
      var server := ParsePrincipal(client.rest);
      BodySound(client.value, server.value, server.rest);
    }
  }

  lemma {:induction false} CredentialsRoundTrip(cs: seq<RawCredential>)
    ensures ParseCredentials(PutCredentials(cs, [])) == Got(cs, [])
  {
    hide ParseCredential, PutCredential;
    if cs != [] {
      var after := PutCredentials(cs[1..], []);
      CredentialRoundTrip(cs[0], after);
      CredentialsRoundTrip(cs[1..]);
      assert cs == [cs[0]] + cs[1..];
    }
  }

  lemma {:induction false} CredentialsSound(s: seq<Byte>)
    ensures ParseCredentials(s).Got? ==> s == PutCredentials(ParseCredentials(s).value, [])
    decreases |s|
  {
    if s != [] && ParseCredentials(s).Got? {
      CredentialSound(s);
      var tail := ParseCredential(s).rest;
      CredentialsSound(tail);
      assert ParseCredentials(s).value[1..] == ParseCredentials(tail).value;
    }
  }

  lemma PreambleRoundTrip(c: RawCache, rest: seq<Byte>)
    ensures ParsePreamble(PutU16(|c.header|, c.header + PutPrincipal(c.principal, rest)))
         == Got(c.(creds := []), rest)
  {
    var after := PutPrincipal(c.principal, rest);
    U16RoundTrip(|c.header|, c.header + after);
    assert (c.header + after)[..|c.header|] == c.header && (c.header + after)[|c.header|..] == after;
    PrincipalRoundTrip(c.principal, rest);
  }

  lemma PreambleSound(s: seq<Byte>)
    ensures ParsePreamble(s).Got? ==>
              var Got(c, rest) := ParsePreamble(s);
              s == PutU16(|c.header|, c.header + PutPrincipal(c.principal, rest))
  {
    if ParsePreamble(s).Got? {
      U16Sound(s);
      var s1 := ParseU16(s);
      PrincipalSound(ParseTake(s1.value, s1.rest).rest);
    }
  }

  /** Reading an encoded cache gives that cache, header and dropped fields included. */
  lemma DecodeEncode(c: RawCache)
    ensures Decode(Encode(c)) == Ok(c)
  {
    var creds := PutCredentials(c.creds, []);
    U16RoundTrip(VERSION_V4, PutU16(|c.header|, c.header + PutPrincipal(c.principal, creds)));
    PreambleRoundTrip(c, creds);
    CredentialsRoundTrip(c.creds);
  }

  /** A file that is refused names another version in its first two octets, or is cut short. */
  lemma WhyRefused(b: seq<Byte>)
    requires Decode(b).Err?
    ensures var version := if |b| < 2 then 0x0504 else (b[0] as int) * 256 + b[1] as int;
            Decode(b).error == if version != 0x0504 then UnsupportedVersion(version) else Truncated
  {
    hide ParsePreamble, ParseCredentials;
    if |b| >= 2 {
      var two := b[..2];
      assert two[..1] == [b[0]] && [b[0]][..0] == [];
      assert BeValue([b[0]]) == b[0];
      assert BeValue(two) == (b[0] as int) * 256 + b[1] as int;
    }
  }

  /** The reader accepts nothing else: an accepted file is the encoding of what was read, byte for byte. */
  lemma EncodeDecode(b: seq<Byte>)
    ensures Decode(b).Ok? ==> Encode(Decode(b).value) == b
  {
    if Decode(b).Ok? {
      U16Sound(b);
      var s := ParseU16(b).rest;
      PreambleSound(s);
      CredentialsSound(ParsePreamble(s).rest);
    }
  }

  // ---- A truncated file ---------------------------------------------------------

  lemma {:induction false} PutBlobsAppend(ss: seq<Blob>, rest: seq<Byte>, more: seq<Byte>)
    ensures PutBlobs(ss, rest) + more == PutBlobs(ss, rest + more)
  {
    if ss != [] {
      PutBlobsAppend(ss[1..], rest, more);
      PutBlobAppend(ss[0], PutBlobs(ss[1..], rest), more);
    }
  }

  lemma PutU32Append(n: U32, rest: seq<Byte>, more: seq<Byte>)
    ensures PutU32(n, rest) + more == PutU32(n, rest + more)
  {
  }

  lemma PutU16Append(n: U16, rest: seq<Byte>, more: seq<Byte>)
    ensures PutU16(n, rest) + more == PutU16(n, rest + more)
  {
  }

  lemma PutBlobAppend(s: Blob, rest: seq<Byte>, more: seq<Byte>)
    ensures PutBlob(s, rest) + more == PutBlob(s, rest + more)
  {
    PutU32Append(|s|, s + rest, more);
    assert s + rest + more == s + (rest + more);
  }

  lemma {:induction false} PutTypedItemsAppend(ts: seq<Typed>, rest: seq<Byte>, more: seq<Byte>)
    ensures PutTypedItems(ts, rest) + more == PutTypedItems(ts, rest + more)
  {
    hide PutU16, PutBlob;
    if ts != [] {
      var after := PutTypedItems(ts[1..], rest);
      PutTypedItemsAppend(ts[1..], rest, more);
      PutBlobAppend(ts[0].data, after, more);
      PutU16Append(ts[0].kind, PutBlob(ts[0].data, after), more);
    }
  }

  lemma PutTypedListAppend(ts: TypedList, rest: seq<Byte>, more: seq<Byte>)
    ensures PutTypedList(ts, rest) + more == PutTypedList(ts, rest + more)
  {
    PutTypedItemsAppend(ts, rest, more);
    PutU32Append(|ts|, PutTypedItems(ts, rest), more);
  }

  lemma PutPrincipalAppend(p: RawPrincipal, rest: seq<Byte>, more: seq<Byte>)
    ensures PutPrincipal(p, rest) + more == PutPrincipal(p, rest + more)
  {
    hide PutU32, PutBlob;
    var s3 := PutBlobs(p.components, rest);
    var s2 := PutBlob(p.realm, s3);
    PutBlobsAppend(p.components, rest, more);
    PutBlobAppend(p.realm, s3, more);
    PutU32Append(|p.components|, s2, more);
    PutU32Append(p.nameType, PutU32(|p.components|, s2), more);
  }

  lemma PutTailAppend(c: RawCredential, rest: seq<Byte>, more: seq<Byte>)
    ensures PutTail(c, rest) + more == PutTail(c, rest + more)
  {
    hide PutU32, PutBlob, PutTypedList;
    var s4 := PutBlob(c.secondTicket, rest);
    var s3 := PutBlob(c.ticket, s4);
    var s2 := PutTypedList(c.authdata, s3);
    var s1 := PutTypedList(c.addresses, s2);
    PutBlobAppend(c.secondTicket, rest, more);
    PutBlobAppend(c.ticket, s4, more);
    PutTypedListAppend(c.authdata, s3, more);
    PutTypedListAppend(c.addresses, s2, more);
    PutU32Append(c.flags, s1, more);
    assert [c.isSkey] + PutU32(c.flags, s1) + more == [c.isSkey] + (PutU32(c.flags, s1) + more);
  }

  lemma PutBodyAppend(c: RawCredential, rest: seq<Byte>, more: seq<Byte>)
    ensures PutBody(c, rest) + more == PutBody(c, rest + more)
  {
    hide PutU16, PutU32, PutBlob, PutTail;
    var s6 := PutTail(c, rest);
    var s5 := PutU32(c.renewTill, s6);
    var s4 := PutU32(c.endtime, s5);
    var s3 := PutU32(c.starttime, s4);
    var s2 := PutU32(c.authtime, s3);
    PutTailAppend(c, rest, more);
    PutU32Append(c.renewTill, s6, more);
    PutU32Append(c.endtime, s5, more);
    PutU32Append(c.starttime, s4, more);
    PutU32Append(c.authtime, s3, more);
    PutBlobAppend(c.key, s2, more);
    PutU16Append(c.keytype, PutBlob(c.key, s2), more);
  }

  lemma PutCredentialAppend(c: RawCredential, rest: seq<Byte>, more: seq<Byte>)
    ensures PutCredential(c, rest) + more == PutCredential(c, rest + more)
  {
    hide PutPrincipal, PutBody;
    PutBodyAppend(c, rest, more);
    PutPrincipalAppend(c.server, PutBody(c, rest), more);
    PutPrincipalAppend(c.client, PutPrincipal(c.server, PutBody(c, rest)), more);
  }

  lemma {:induction false} PutCredentialsAppend(cs: seq<RawCredential>, rest: seq<Byte>, more: seq<Byte>)
    ensures PutCredentials(cs, rest) + more == PutCredentials(cs, rest + more)
  {
    hide PutCredential;
    if cs != [] {
      PutCredentialsAppend(cs[1..], rest, more);
      PutCredentialAppend(cs[0], PutCredentials(cs[1..], rest), more);
    }
  }

  lemma {:induction false} PutCredentialsSplit(cs: seq<RawCredential>, k: nat)
    requires k <= |cs|
    ensures PutCredentials(cs, []) == PutCredentials(cs[..k], PutCredentials(cs[k..], []))
  {
    hide PutCredential;
    if k > 0 {
      PutCredentialsSplit(cs[1..], k - 1);
      assert cs[1..][..k - 1] == cs[..k][1..] && cs[1..][k - 1..] == cs[k..];
    }
  }

  /** The encoder with an explicit continuation after the last credential. */
  lemma EncodeAppend(c: RawCache, more: seq<Byte>)
    ensures Encode(c) + more
         == PutU16(VERSION_V4, PutU16(|c.header|, c.header + PutPrincipal(c.principal, PutCredentials(c.creds, more))))
  {
    hide PutPrincipal, PutCredentials, PutU16;
    var creds := PutCredentials(c.creds, []);
    var tail := PutPrincipal(c.principal, creds);
    PutCredentialsAppend(c.creds, [], more);
    assert [] + more == more;
    PutPrincipalAppend(c.principal, creds, more);
    assert c.header + tail + more == c.header + (tail + more);
    PutU16Append(|c.header|, c.header + tail, more);
    PutU16Append(VERSION_V4, PutU16(|c.header|, c.header + tail), more);
  }

  lemma PutCredentialNonEmpty(c: RawCredential, rest: seq<Byte>)
    ensures PutCredential(c, rest) != []
  {
  }

  /** Credential encodings are prefix free, so equal octets name equal credentials as far as both go. */
  lemma {:induction false} CredentialsPrefix(cs: seq<RawCredential>, cs': seq<RawCredential>, more: seq<Byte>)
    requires PutCredentials(cs, []) == PutCredentials(cs', more)
    ensures |cs'| <= |cs| && cs' == cs[..|cs'|]
  {
    hide PutCredential, ParseCredential;
    if cs' != [] {
      PutCredentialNonEmpty(cs'[0], PutCredentials(cs'[1..], more));
      CredentialRoundTrip(cs'[0], PutCredentials(cs'[1..], more));
      CredentialRoundTrip(cs[0], PutCredentials(cs[1..], []));
      CredentialsPrefix(cs[1..], cs'[1..], more);
      assert cs' == [cs'[0]] + cs'[1..];
    }
  }

  function FirstCredentials(c: RawCache, k: nat): RawCache
    requires k <= |c.creds|
  {
    c.(creds := c.creds[..k])
  }

  /** Where credential `k` of the encoded cache starts; after the last one, the length of the file. */
  function Boundary(c: RawCache, k: nat): nat
    requires k <= |c.creds|
  {
    |Encode(FirstCredentials(c, k))|
  }

  lemma CutAtBoundary(c: RawCache, k: nat)
    requires k <= |c.creds|
    ensures Boundary(c, k) <= |Encode(c)|
    ensures Encode(c)[..Boundary(c, k)] == Encode(FirstCredentials(c, k))
  {
    hide PutPrincipal, PutU16, PutCredentials;
    var more := PutCredentials(c.creds[k..], []);
    PutCredentialsSplit(c.creds, k);
    EncodeAppend(FirstCredentials(c, k), more);
    assert Encode(c) == Encode(FirstCredentials(c, k)) + more;
  }

  lemma PrefixOfEncoding(c: RawCache, c': RawCache, more: seq<Byte>)
    requires Encode(c) == Encode(c') + more
    ensures |c'.creds| <= |c.creds| && c' == FirstCredentials(c, |c'.creds|)
  {
    hide PutPrincipal, PutU16, PutCredentials, ParseU16, ParsePreamble;
    EncodeAppend(c', more);
    var rest, rest' := PutCredentials(c.creds, []), PutCredentials(c'.creds, more);
    U16RoundTrip(VERSION_V4, PutU16(|c.header|, c.header + PutPrincipal(c.principal, rest)));
    U16RoundTrip(VERSION_V4, PutU16(|c'.header|, c'.header + PutPrincipal(c'.principal, rest')));
    PreambleRoundTrip(c, rest);
    PreambleRoundTrip(c', rest');
    assert c.(creds := []) == c'.(creds := []);
    CredentialsPrefix(c.creds, c'.creds, more);
  }

  /**
   A file cut short is accepted exactly when the cut falls on a credential boundary, and what is
   then read is the credentials before the cut.
   */
  lemma CutFile(c: RawCache, m: nat)
    requires m <= |Encode(c)|
    ensures Decode(Encode(c)[..m]).Ok? <==> exists k :: 0 <= k <= |c.creds| && m == Boundary(c, k)
    ensures forall k :: 0 <= k <= |c.creds| && m == Boundary(c, k) ==>
              Decode(Encode(c)[..m]) == Ok(FirstCredentials(c, k))
  {
    hide Decode, Encode;
    var cut := Encode(c)[..m];
    forall k | 0 <= k <= |c.creds| && m == Boundary(c, k)
      ensures Decode(cut) == Ok(FirstCredentials(c, k))
    {
      CutAtBoundary(c, k);
      DecodeEncode(FirstCredentials(c, k));
    }
    if Decode(cut).Ok? {
      var c' := Decode(cut).value;
      EncodeDecode(cut);
      assert Encode(c) == Encode(c') + Encode(c)[m..];
      PrefixOfEncoding(c, c', Encode(c)[m..]);
      assert m == Boundary(c, |c'.creds|);
    }
  }
}
