/**
 The client's cache reader: a cursor over the file, advanced field by field. Every method is
 proved against the parsing function of the same field in module `Ccache`.
 */
module CcacheReader {
  import opened Wrappers
  import opened Bytes
  import opened Ccache
  import Utf8

  /** The result of a repetition that has already read `done`. */
  ghost function Onto<T>(done: seq<T>, p: Parse<seq<T>>): Parse<seq<T>> {
    match p
    case Short => Short
    case Got(xs, rest) => Got(done + xs, rest)
  }

  lemma OntoNothing<T>(p: Parse<seq<T>>)
    ensures Onto([], p) == p
  {
    if p.Got? {
      assert [] + p.value == p.value;
    }
  }

  lemma OntoStep<T>(done: seq<T>, x: T, p: Parse<seq<T>>)
    ensures Onto(done, Onto([x], p)) == Onto(done + [x], p)
  {
    if p.Got? {
      assert done + ([x] + p.value) == done + [x] + p.value;
    }
  }

  class Reader {
    const b: seq<Byte>
    var at: nat

    ghost predicate Valid()
      reads this
    {
      at <= |b|
    }

    /** The octets not read yet. */
    ghost function Rest(): seq<Byte>
      requires Valid()
      reads this
    {
      b[at..]
    }

    constructor (bytes: seq<Byte>)
      ensures Valid() && b == bytes && at == 0 && Rest() == bytes
    {
      b := bytes;
      at := 0;
    }

    /** The next `n` octets; at a short file an error, and the cursor stays. */
    method Take(n: nat) returns (r: Result<seq<Byte>, ReadError>)
      requires Valid()
      modifies this
      ensures Valid()
      ensures match ParseTake(n, old(Rest()))
              case Short => r == Err(Truncated) && at == old(at)
              case Got(v, rest) => r == Ok(v) && Rest() == rest
    {
      var end := at + n;
      if end > |b| {
        return Err(Truncated);
      }
      var slice := b[at..end];
      assert slice == Rest()[..n] && b[end..] == Rest()[n..];
      at := end;
      return Ok(slice);
    }

    method U16() returns (r: Result<U16, ReadError>)
      requires Valid()
      modifies this
      ensures Valid()
      ensures match ParseU16(old(Rest()))
              case Short => r == Err(Truncated)
              case Got(v, rest) => r == Ok(v) && Rest() == rest
    {
      var octets :- Take(2);
      BeValueBound(octets);
      PowersOf256();
      return Ok(BeValue(octets));
    }

    method U32() returns (r: Result<U32, ReadError>)
      requires Valid()
      modifies this
      ensures Valid()
      ensures match ParseU32(old(Rest()))
              case Short => r == Err(Truncated)
              case Got(v, rest) => r == Ok(v) && Rest() == rest
    {
      var octets :- Take(4);
      BeValueBound(octets);
      PowersOf256();
      return Ok(BeValue(octets));
    }

    method Blob() returns (r: Result<Blob, ReadError>)
      requires Valid()
      modifies this
      ensures Valid()
      ensures match ParseBlob(old(Rest()))
              case Short => r == Err(Truncated)
              case Got(v, rest) => r == Ok(v) && Rest() == rest
    {
      var len :- U32();
      r := Take(len);
    }

    /** A counted name, decoded as text. */
    method Str() returns (r: Result<seq<Byte>, ReadError>)
      requires Valid()
      modifies this
      ensures Valid()
      ensures match ParseBlob(old(Rest()))
              case Short => r == Err(Truncated)
              case Got(v, rest) => r == Ok(Utf8.Lossy(v)) && Rest() == rest
    {
      var octets :- Blob();
      return Ok(Utf8.Lossy(octets));
    }

    /** `n` names, stopping at the first that is cut. */
    method Strs(n: nat) returns (r: Result<seq<seq<Byte>>, ReadError>)
      requires Valid()
      modifies this
      ensures Valid()
      ensures match ParseBlobs(n, old(Rest()))
              case Short => r == Err(Truncated)
              case Got(v, rest) => r == Ok(LossyAll(v)) && Rest() == rest
    {
      hide ParseBlob;
      ghost var start := Rest();
      ghost var raw: seq<Ccache.Blob> := [];
      var out := [];
      OntoNothing(ParseBlobs(n, start));
      for i := 0 to n
        invariant Valid()
        invariant |raw| == i && out == LossyAll(raw)
        invariant ParseBlobs(n, start) == Onto(raw, ParseBlobs(n - i, Rest()))
      {
        ghost var here := Rest();
        var s :- Str();
        OntoStep(raw, ParseBlob(here).value, ParseBlobs(n - i - 1, Rest()));
        raw := raw + [ParseBlob(here).value];
        out := out + [s];
      }
      assert raw + [] == raw;
      return Ok(out);
    }

    method Principal() returns (r: Result<Principal, ReadError>)
      requires Valid()
      modifies this
      ensures Valid()
      ensures match ParsePrincipal(old(Rest()))
              case Short => r == Err(Truncated)
              case Got(v, rest) => r == Ok(PrincipalView(v)) && Rest() == rest
    {
      hide ParseU32, ParseBlob;
      var nameType :- U32();
      var n :- U32();
      var realm :- Str();
      var components :- Strs(n);
      return Ok(Ccache.Principal(nameType, realm, components));
    }

    /** Read and drop a counted list of addresses or authorization data. */
    method SkipTypedList() returns (r: Result<(), ReadError>)
      requires Valid()
      modifies this
      ensures Valid()
      ensures match ParseTypedList(old(Rest()))
              case Short => r == Err(Truncated)
              case Got(_, rest) => r == Ok(()) && Rest() == rest
    {
      hide ParseU16, ParseU32, ParseBlob;
      var n :- U32();
      ghost var items := Rest();
      for i := 0 to n
        invariant Valid()
        invariant match ParseTypedItems(n - i, Rest())
                  case Short => ParseTypedItems(n, items).Short?
                  case Got(_, rest) => ParseTypedItems(n, items).Got? && ParseTypedItems(n, items).rest == rest
      {
        var _ :- U16();
        var _ :- Blob();
      }
      return Ok(());
    }

    method Credential() returns (r: Result<Credential, ReadError>)
      requires Valid()
      modifies this
      ensures Valid()
      ensures match ParseCredential(old(Rest()))
              case Short => r == Err(Truncated)
              case Got(v, rest) => r == Ok(View(v)) && Rest() == rest
    {
      hide ParsePrincipal, ParseU16, ParseU32, ParseBlob, ParseTypedList;
      var client :- Principal();
      var server :- Principal();
      var keytype :- U16();
      var key :- Blob();
      var authtime :- U32();
      var starttime :- U32();
      var endtime :- U32();
      var renewTill :- U32();
      var _ :- Take(1); // is_skey
      var flags :- U32();
      var _ :- SkipTypedList(); // addresses
      var _ :- SkipTypedList(); // authorization data
      var ticket :- Blob();
      var _ :- Blob(); // second ticket
      return Ok(Ccache.Credential(client, server, keytype, key,
                                  authtime, starttime, endtime, renewTill, flags, ticket));
    }
  }

  /** What the client reads out of a cache file: every credential, in file order. */
  function CredentialsOf(b: seq<Byte>): Result<seq<Credential>, ReadError> {
    match Decode(b)
    case Err(e) => Err(e)
    case Ok(cache) => Ok(Views(cache.creds))
  }

  /** For every cache, what is read out of its file is, field by field and in order, what it holds. */
  lemma CredentialsShow(cache: RawCache)
    ensures CredentialsOf(Encode(cache)).Ok?
    ensures var cs := CredentialsOf(Encode(cache)).value;
            |cs| == |cache.creds| && forall i :: 0 <= i < |cs| ==> Shows(cs[i], cache.creds[i])
  {
    hide Encode, Decode, Utf8.Lossy;
    DecodeEncode(cache);
  }

  /** Credentials until the file ends. */
  method CredentialsToEnd(reader: Reader) returns (r: Result<seq<Credential>, ReadError>)
    requires reader.Valid()
    modifies reader
    ensures reader.Valid()
    ensures match ParseCredentials(old(reader.Rest()))
            case Short => r == Err(Truncated)
            case Got(cs, _) => r == Ok(Views(cs)) && reader.at == |reader.b|
  {
    hide ParseCredential;
    var out := [];
    ghost var all := reader.Rest();
    ghost var raw: seq<RawCredential> := [];
    OntoNothing(ParseCredentials(all));
    while reader.at < |reader.b|
      invariant reader.Valid()
      invariant out == Views(raw)
      invariant ParseCredentials(all) == Onto(raw, ParseCredentials(reader.Rest()))
      decreases |reader.b| - reader.at
    {
      ghost var here := reader.Rest();
      var cred :- reader.Credential();
      OntoStep(raw, ParseCredential(here).value, ParseCredentials(reader.Rest()));
      raw := raw + [ParseCredential(here).value];
      out := out + [cred];
    }
    assert raw + [] == raw;
    return Ok(out);
  }

  /** The header and the default principal, which is dropped: every credential names its own client. */
  method Preamble(reader: Reader) returns (r: Result<(), ReadError>)
    requires reader.Valid()
    modifies reader
    ensures reader.Valid()
    ensures match ParsePreamble(old(reader.Rest()))
            case Short => r == Err(Truncated)
            case Got(_, rest) => r == Ok(()) && reader.Rest() == rest
  {
    hide ParsePrincipal, ParseU16, PrincipalView, Reader.Valid, ParseTake;
    var headerLen :- reader.U16();
    var _ :- reader.Take(headerLen);
    var _ :- reader.Principal();
    r := Ok(());
  }

  method Credentials(bytes: seq<Byte>) returns (r: Result<seq<Credential>, ReadError>)
    ensures r == CredentialsOf(bytes)
  {
    hide ParsePreamble, ParseU16, ParseCredentials, Views, Reader.Valid;
    var reader := new Reader(bytes);
    var version :- reader.U16();
    if version != VERSION_V4 {
      return Err(UnsupportedVersion(version));
    }
    var _ :- Preamble(reader);
    r := CredentialsToEnd(reader);
  }
}
