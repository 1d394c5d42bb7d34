/** Picking the ticket-granting ticket out of a cache, and listing a cache. */
module Tgt {
  import opened Bytes
  import opened Ccache
  import opened CcacheReader
  import KrbCred
  import Utf8
  import opened Wrappers

  /** `krbtgt` in ASCII. */
  const KRBTGT: seq<Byte> := [0x6b, 0x72, 0x62, 0x74, 0x67, 0x74]

  /** The rule by which a credential counts as the TGT of its own realm. */
  predicate IsTgt(c: Credential) {
    && |c.server.components| == 2
    && c.server.components[0] == KRBTGT
    && c.server.components[1] == c.server.realm
  }

  datatype Tgt = Tgt(krbcred: seq<Byte>, start: U32, end: U32, renewTill: U32)

  datatype TgtError = Unreadable(error: ReadError) | NoTgt

  /** MIT stores 0 for a start time the KDC left out; `authtime` then stands in. */
  function Start(c: Credential): U32 {
    if c.starttime != 0 then c.starttime else c.authtime
  }

  /** One line of a cache listing. */
  datatype CachedCred = CachedCred(
    client: seq<Byte>, server: seq<Byte>, start: U32, end: U32, renewTill: U32, isTgt: bool)

  /** `comp/comp@REALM`. */
  function Display(p: Principal): seq<Byte> {
    Slashed(p.components) + [0x40] + p.realm
  }

  function Slashed(names: seq<seq<Byte>>): seq<Byte> {
    if names == [] then [] else if |names| == 1 then names[0] else names[0] + [0x2F] + Slashed(names[1..])
  }

  function Row(c: Credential): CachedCred {
    CachedCred(Display(c.client), Display(c.server), Start(c), c.endtime, c.renewTill, IsTgt(c))
  }

  // ---- Every credential of a readable cache fits the writer -------------------------

  /** Files up to 2^61 octets, more than any address space the client runs in. */
  predicate Readable(b: seq<Byte>) {
    |b| <= 0x2000_0000_0000_0000
  }

  ghost function BlobsSize(ss: seq<Blob>): nat {
    if ss == [] then 0 else 4 + |ss[0]| + BlobsSize(ss[1..])
  }

  lemma {:induction false} PutBlobsSize(ss: seq<Blob>, rest: seq<Byte>)
    ensures |PutBlobs(ss, rest)| == BlobsSize(ss) + |rest|
  {
    if ss != [] {
      PutBlobsSize(ss[1..], rest);
    }
  }

  lemma {:induction false} PutTypedItemsSize(ts: seq<Typed>, rest: seq<Byte>)
    ensures |PutTypedItems(ts, rest)| >= |rest|
  {
    if ts != [] {
      PutTypedItemsSize(ts[1..], rest);
    }
  }

  lemma PutTailSize(c: RawCredential, rest: seq<Byte>)
    ensures |PutTail(c, rest)| >= |c.ticket| + |rest|
  {
    var s2 := PutBlob(c.ticket, PutBlob(c.secondTicket, rest));
    PutTypedItemsSize(c.authdata, s2);
    PutTypedItemsSize(c.addresses, PutTypedList(c.authdata, s2));
  }

  lemma PutPrincipalSize(p: RawPrincipal, rest: seq<Byte>)
    ensures |PutPrincipal(p, rest)| >= |p.realm| + BlobsSize(p.components) + |rest|
  {
    PutBlobsSize(p.components, rest);
  }

  ghost function Sized(c: RawCredential): nat {
    |c.ticket| + |c.key| + |c.client.realm| + BlobsSize(c.client.components)
    + |c.server.realm| + BlobsSize(c.server.components)
  }

  lemma PutCredentialSize(c: RawCredential, rest: seq<Byte>)
    ensures |PutCredential(c, rest)| >= Sized(c) + |rest|
  {
    hide PutPrincipal, PutTail;
    PutTailSize(c, rest);
    PutPrincipalSize(c.server, PutBody(c, rest));
    PutPrincipalSize(c.client, PutPrincipal(c.server, PutBody(c, rest)));
  }

  lemma {:induction false} PutCredentialsSize(cs: seq<RawCredential>, i: nat, rest: seq<Byte>)
    requires i < |cs|
    ensures |PutCredentials(cs, rest)| >= Sized(cs[i])
  {
    hide PutCredential, Sized;
    PutCredentialSize(cs[0], PutCredentials(cs[1..], rest));
    if i > 0 {
      PutCredentialsSize(cs[1..], i - 1, rest);
    }
  }

  lemma {:induction false} LossySize(s: seq<Byte>)
    ensures |Utf8.Lossy(s)| <= 3 * |s|
  {
    if s != [] {
      LossySize(s[Utf8.First(s).width..]);
    }
  }

  lemma {:induction false} LossyWeight(ss: seq<Blob>)
    ensures KrbCred.NamesWeight(LossyAll(ss)) <= 3 * BlobsSize(ss)
  {
    if ss != [] {
      LossySize(ss[0]);
      LossyWeight(ss[1..]);
      assert LossyAll(ss)[1..] == LossyAll(ss[1..]);
    }
  }

  lemma CachedCredentialFits(b: seq<Byte>, i: nat)
    requires Readable(b) && Decode(b).Ok? && i < |Decode(b).value.creds|
    ensures KrbCred.Fits(View(Decode(b).value.creds[i]))
  {
    hide Decode, PutCredentials, PutPrincipal;
    var cache := Decode(b).value;
    var c := cache.creds[i];
    EncodeDecode(b);
    PutCredentialsSize(cache.creds, i, []);
    PutPrincipalSize(cache.principal, PutCredentials(cache.creds, []));
    LossySize(c.client.realm);
    LossySize(c.server.realm);
    LossyWeight(c.client.components);
    LossyWeight(c.server.components);
  }

  // ---- The two entry points -------------------------------------------------------------

  ghost predicate FirstTgt(cs: seq<Credential>, i: nat) {
    i < |cs| && IsTgt(cs[i]) && forall j :: 0 <= j < i ==> !IsTgt(cs[j])
  }

  /** The position of the first TGT. */
  function TgtIndex(cs: seq<Credential>): (r: Option<nat>)
    ensures r.Some? ==> FirstTgt(cs, r.value)
    ensures r.None? ==> forall j :: 0 <= j < |cs| ==> !IsTgt(cs[j])
  {
    if cs == [] then None
    else if IsTgt(cs[0]) then Some(0)
    else match TgtIndex(cs[1..])
      case None => None
      case Some(i) => Some(i + 1)
  }

  /** The repackaged ticket of credential `c`. */
  function TgtOf(c: Credential): Tgt
    requires KrbCred.Fits(c)
  {
    Tgt(KrbCred.KrbCred(c), Start(c), c.endtime, c.renewTill)
  }

  /** What converting the file gives. */
  function Converted(b: seq<Byte>): Result<Tgt, TgtError>
    requires Readable(b)
  {
    hide Decode, KrbCred.Fits, KrbCred.KrbCred;
    match CredentialsOf(b)
    case Err(e) => Err(Unreadable(e))
    case Ok(cs) =>
      match TgtIndex(cs)
      case None => Err(NoTgt)
      case Some(i) => CachedCredentialFits(b, i); Ok(TgtOf(cs[i]))
  }

  /** What listing the file gives. */
  function Listing(b: seq<Byte>): Result<seq<CachedCred>, ReadError> {
    match CredentialsOf(b)
    case Err(e) => Err(e)
    case Ok(cs) => Ok(seq(|cs|, i requires 0 <= i < |cs| => Row(cs[i])))
  }

  /** Parse the cache, isolate the TGT, repackage it. */
  method CcacheToTgt(bytes: seq<Byte>) returns (r: Result<Tgt, TgtError>)
    requires Readable(bytes)
    ensures r == Converted(bytes)
  {
    hide Decode, KrbCred.Fits, KrbCred.KrbCred, IsTgt;
    var read := Credentials(bytes);
    if read.Err? {
      return Err(Unreadable(read.error));
    }
    var cs := read.value;
    for i := 0 to |cs|
      invariant forall j :: 0 <= j < i ==> !IsTgt(cs[j])
    {
      if IsTgt(cs[i]) {
        CachedCredentialFits(bytes, i);
        assert FirstTgt(cs, i);
        return Ok(TgtOf(cs[i]));
      }
    }
    return Err(NoTgt);
  }

  /** Every credential of the cache, in file order, to look at. */
  method ReadCache(bytes: seq<Byte>) returns (r: Result<seq<CachedCred>, ReadError>)
    ensures r == Listing(bytes)
  {
    var cs :- Credentials(bytes);
    return Ok(seq(|cs|, i requires 0 <= i < |cs| => Row(cs[i])));
  }

  // ---- What the two have to do with each other, and with the file ------------------------

  /** What the message should say, told from the file. */
  ghost function FileInfo(raw: RawCredential): KrbCred.Info {
    KrbCred.Info(
      KrbCred.Key(raw.keytype, raw.key),
      Some(Utf8.Lossy(raw.client.realm)), Some(KrbCred.Name(raw.client.nameType, LossyAll(raw.client.components))),
      Some(raw.flags), Some(raw.authtime),
      if raw.starttime == 0 then None else Some(raw.starttime), Some(raw.endtime),
      if raw.renewTill == 0 then None else Some(raw.renewTill),
      Some(Utf8.Lossy(raw.server.realm)), Some(KrbCred.Name(raw.server.nameType, LossyAll(raw.server.components))))
  }

  /** The start time in the file, or the time of authentication where the file has none. */
  ghost predicate StartsAt(start: U32, raw: RawCredential) {
    (raw.starttime != 0 ==> start == raw.starttime) && (raw.starttime == 0 ==> start == raw.authtime)
  }

  /** `tgt` carries the times of the file's credential `raw`, and its message reads as that credential. */
  ghost predicate Repackages(tgt: Tgt, raw: RawCredential) {
    && StartsAt(tgt.start, raw) && tgt.end == raw.endtime && tgt.renewTill == raw.renewTill
    && KrbCred.ReadMessage(tgt.krbcred) == Some(KrbCred.Message(5, 22, raw.ticket, 0, None, [FileInfo(raw)]))
  }

  /** The row lists the file's credential `raw`. */
  ghost predicate Lists(row: CachedCred, raw: RawCredential) {
    && StartsAt(row.start, raw) && row.end == raw.endtime && row.renewTill == raw.renewTill
    && row.client == Slashed(LossyAll(raw.client.components)) + [0x40] + Utf8.Lossy(raw.client.realm)
    && row.server == Slashed(LossyAll(raw.server.components)) + [0x40] + Utf8.Lossy(raw.server.realm)
    && (row.isTgt <==>
          && |raw.server.components| == 2 && raw.server.components[0] == Ascii("krbtgt")
          && Utf8.Lossy(raw.server.components[1]) == Utf8.Lossy(raw.server.realm))
  }

  /** A text of ASCII characters as octets. */
  function Ascii(s: string): seq<Byte>
    requires forall i :: 0 <= i < |s| ==> s[i] < '\U{80}'
  {
    seq(|s|, i requires 0 <= i < |s| => s[i] as int)
  }

  lemma KrbtgtIsAscii()
    ensures Ascii("krbtgt") == KRBTGT
  {
  }

  /** The names with a slash between any two neighbours, whichever way they are grouped. */
  lemma {:induction false} SlashedSpec(a: seq<seq<Byte>>, b: seq<seq<Byte>>)
    ensures Slashed([]) == [] && forall x :: Slashed([x]) == x
    ensures a != [] && b != [] ==> Slashed(a + b) == Slashed(a) + [0x2F] + Slashed(b)
  {
    if a != [] && b != [] {
      var all := a + b;
      if |a| == 1 {
        assert all[1..] == b;
      } else {
        SlashedSpec(a[1..], b);
        assert all[1..] == a[1..] + b;
        var front := a[0] + [0x2F];
        assert front + (Slashed(a[1..]) + [0x2F] + Slashed(b)) == front + Slashed(a[1..]) + [0x2F] + Slashed(b);
      }
    }
  }

  lemma RowLists(raw: RawCredential)
    ensures Lists(Row(View(raw)), raw)
  {
    hide Utf8.Lossy, Slashed;
    KrbtgtIsAscii();
    var names := raw.server.components;
    if |names| == 2 {
      Utf8.LossyOfAscii(names[0], KRBTGT);
      var shown := View(raw).server;
      assert shown.components[0] == Utf8.Lossy(names[0]) && shown.components[1] == Utf8.Lossy(names[1]);
    }
  }

  /** For every file that reads, the listing has one row for each credential, in order, and says what the file says. */
  lemma ListingShows(b: seq<Byte>)
    ensures Listing(b).Ok? <==> Decode(b).Ok?
    ensures Listing(b).Ok? ==>
              var rows, raws := Listing(b).value, Decode(b).value.creds;
              |rows| == |raws| && forall i :: 0 <= i < |rows| ==> Lists(rows[i], raws[i])
  {
    hide Decode, Lists, View, Row;
    if Decode(b).Ok? {
      var rows, raws := Listing(b).value, Decode(b).value.creds;
      forall i | 0 <= i < |rows| ensures Lists(rows[i], raws[i]) {
        RowLists(raws[i]);
      }
    }
  }

  lemma TgtRepackages(raw: RawCredential)
    requires KrbCred.Fits(View(raw))
    ensures Repackages(TgtOf(View(raw)), raw)
  {
    hide KrbCred.Fits, KrbCred.KrbCred, KrbCred.ReadMessage, Utf8.Lossy;
    KrbCred.MessageReadsBack(View(raw));
    assert KrbCred.Expected(View(raw)) == KrbCred.Message(5, 22, raw.ticket, 0, None, [FileInfo(raw)]);
  }

  ghost predicate FirstMarked(rows: seq<CachedCred>, i: nat) {
    i < |rows| && rows[i].isTgt && forall j :: 0 <= j < i ==> !rows[j].isTgt
  }

  ghost predicate RepackagesFirstMarked(tgt: Tgt, b: seq<Byte>) {
    hide Decode, Listing, FirstMarked, Repackages;
    && Decode(b).Ok? && Listing(b).Ok?
    && var raws, rows := Decode(b).value.creds, Listing(b).value;
    && |raws| == |rows|
    && exists i :: 0 <= i < |rows| && FirstMarked(rows, i) && Repackages(tgt, raws[i])
  }

  /**
   On any file, the conversion succeeds exactly when the listing succeeds and marks a row as the
   TGT, and it then repackages the credential of the first such row: its times, with the time of
   authentication for a start the file leaves out, and a message that reads as that credential.
   */
  lemma ConversionAgreesWithListing(b: seq<Byte>)
    requires Readable(b)
    ensures Converted(b).Ok? <==>
              Listing(b).Ok? && exists i :: 0 <= i < |Listing(b).value| && Listing(b).value[i].isTgt
    ensures Converted(b).Ok? ==> RepackagesFirstMarked(Converted(b).value, b)
    ensures Converted(b).Err? ==>
              Converted(b).error == if Listing(b).Err? then Unreadable(Listing(b).error) else NoTgt
  {
    hide Decode, KrbCred.Fits, KrbCred.KrbCred, KrbCred.ReadMessage, IsTgt, Display, Repackages;
    if CredentialsOf(b).Ok? {
      var cs := CredentialsOf(b).value;
      var rows := Listing(b).value;
      assert forall i :: 0 <= i < |cs| ==> rows[i].isTgt == IsTgt(cs[i]);
      if Converted(b).Ok? {
        var i := TgtIndex(cs).value;
        CachedCredentialFits(b, i);
        TgtRepackages(Decode(b).value.creds[i]);
        assert FirstMarked(rows, i);
        assert Repackages(Converted(b).value, Decode(b).value.creds[i]);
      }
    }
  }

  /** The name in the file itself is `krbtgt` and two components long, so no configuration entry is picked. */
  lemma PickedNamesKrbtgt(raw: RawCredential)
    ensures IsTgt(View(raw)) ==> |raw.server.components| == 2 && raw.server.components[0] == Ascii("krbtgt")
  {
    KrbtgtIsAscii();
    if IsTgt(View(raw)) {
      Utf8.LossyOfAscii(raw.server.components[0], KRBTGT);
    }
  }

  /** The same credential for the service `krbtgt/name`. */
  function ForRealm(raw: RawCredential, name: Blob): RawCredential {
    raw.(server := raw.server.(components := [KRBTGT, name]))
  }

  /**
   Whatever octets the components hold, the rule is exactly `krbtgt/REALM@REALM` on the octets of the
   file, if the realm is valid UTF-8 without U+FFFD.
   */
  lemma TgtRule(raw: RawCredential)
    requires Utf8.Unambiguous(raw.server.realm)
    ensures IsTgt(View(raw)) <==> raw.server.components == [Ascii("krbtgt"), raw.server.realm]
  {
    hide Utf8.Lossy, Utf8.Unambiguous;
    KrbtgtIsAscii();
    Utf8.UnambiguousIff(raw.server.realm);
    var names := raw.server.components;
    if |names| == 2 {
      Utf8.LossyOfAscii(names[0], KRBTGT);
      var shown := View(raw).server;
      assert shown.components[0] == Utf8.Lossy(names[0]) && shown.components[1] == Utf8.Lossy(names[1]);
      assert Utf8.Lossy(names[1]) == Utf8.Lossy(raw.server.realm) <==> names[1] == raw.server.realm;
      assert names == [names[0], names[1]];
    }
  }

  /** And only then: for any other realm the rule also accepts some name that is not the realm. */
  lemma TgtRuleIsExact(raw: RawCredential)
    ensures (forall name: Blob :: IsTgt(View(ForRealm(raw, name))) <==> name == raw.server.realm)
            <==> Utf8.Unambiguous(raw.server.realm)
  {
    hide Utf8.Lossy, Utf8.Unambiguous, IsTgt, View;
    var realm := raw.server.realm;
    if Utf8.Unambiguous(realm) {
      forall name: Blob ensures IsTgt(View(ForRealm(raw, name))) <==> name == realm {
        TgtRule(ForRealm(raw, name));
        KrbtgtIsAscii();
        assert name == [KRBTGT, name][1];
      }
    } else {
      var other: Blob := TwinName(realm);
      TwinIsPicked(ForRealm(raw, other));
      assert IsTgt(View(ForRealm(raw, other))) && other != realm;
    }
  }

  function TwinName(realm: Blob): (r: Blob)
    requires !Utf8.Unambiguous(realm)
    ensures r != realm && Utf8.Lossy(r) == Utf8.Lossy(realm)
  {
    Utf8.TwinDecodesAlike(realm);
    Utf8.Twin(realm)
  }

  lemma TwinIsPicked(raw: RawCredential)
    requires |raw.server.components| == 2 && raw.server.components[0] == KRBTGT
    requires Utf8.Lossy(raw.server.components[1]) == Utf8.Lossy(raw.server.realm)
    ensures IsTgt(View(raw))
  {
    hide Utf8.Lossy;
    Utf8.LossyOfAscii(KRBTGT, KRBTGT);
  }

  /** Without validity the decoding can make two different names equal. */
  lemma TgtRuleNeedsValidNames(raw: RawCredential)
    requires raw.server == RawPrincipal(1, [0xFF], [KRBTGT, [0xFE]])
    ensures IsTgt(View(raw)) && raw.server.components[1] != raw.server.realm
  {
    hide Utf8.Lossy;
    BadOctet(0xFE);
    BadOctet(0xFF);
    Utf8.LossyOfAscii(KRBTGT, KRBTGT);
  }

  lemma BadOctet(b: Byte)
    requires b >= 0xF5
    ensures Utf8.Lossy([b]) == Utf8.REPLACEMENT
  {
    assert [b][1..] == [];
    assert Utf8.Lossy([b]) == Utf8.REPLACEMENT + Utf8.Lossy([]);
  }
}
