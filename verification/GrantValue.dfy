/**
 The device-grant value stored on a directory object,
 `kbkey1|label=…|es256=…|start=…|end=…|seen=…`: its writer, its order-free reader and the
 sanitizing of client-chosen labels.
 */
module GrantValue {
  import opened Wrappers
  import opened Bytes
  import opened Text

  datatype Error =
    | NotAGrant | NotAField | Duplicate | Algorithms(n: nat)
    | Missing(key: string) | BadValue(key: string) | BadEscape

  datatype Grant = Grant(caption: string, alg: string, thumbprint: string, start: nat, end: nat, seen: Option<nat>)

  const PREFIX := "kbkey1|"
  const ES256 := "es256"
  const THUMBPRINT_LEN: nat := 43
  const MAX_LABEL: nat := 96
  const U64: nat := 0x1_0000_0000_0000_0000

  // Characters.

  predicate Control(c: char) {
    c < ' ' || '\U{7F}' <= c <= '\U{9F}'
  }

  predicate Base64Url(c: char) {
    'A' <= c <= 'Z' || 'a' <= c <= 'z' || Digit(c) || c == '-' || c == '_'
  }

  predicate IsThumbprint(s: string) {
    |s| == THUMBPRINT_LEN && forall i :: 0 <= i < |s| ==> Base64Url(s[i])
  }

  /** A thumbprint is 43 characters of the base64url alphabet, here by code point. */
  lemma ThumbprintIff(s: string)
    ensures IsThumbprint(s) <==>
              |s| == 43 && forall i :: 0 <= i < |s| ==>
                var c := s[i] as int; 48 <= c <= 57 || 65 <= c <= 90 || 97 <= c <= 122 || c == 45 || c == 95
  {
  }

  /** The control characters, by code point. */
  lemma ControlIff(c: char)
    ensures Control(c) <==> c as int < 32 || 127 <= c as int <= 159
  {
  }

  predicate Printable(s: string) {
    forall i :: 0 <= i < |s| ==> !Control(s[i])
  }

  // Escaping.

  function EscapeChar(c: char): string {
    if c == '%' then "%25" else if c == '|' then "%7C" else [c]
  }

  function Escape(s: string): string {
    if s == [] then [] else EscapeChar(s[0]) + Escape(s[1..])
  }

  /** The two characters after a percent sign; the second may be lower case. */
  function Escaped(hi: char, lo: char): Option<char> {
    if hi == '2' && lo == '5' then Some('%')
    else if hi == '7' && (lo == 'C' || lo == 'c') then Some('|')
    else None
  }

  function Unescape(s: string): Option<string> {
    if s == [] then Some([])
    else if s[0] != '%' then Prepend([s[0]], Unescape(s[1..]))
    else if |s| < 3 || Escaped(s[1], s[2]).None? then None
    else Prepend([Escaped(s[1], s[2]).value], Unescape(s[3..]))
  }

  function Prepend(s: string, r: Option<string>): Option<string> {
    if r.None? then None else Some(s + r.value)
  }

  lemma PrependTwice(a: string, b: string, r: Option<string>)
    ensures Prepend(a, Prepend(b, r)) == Prepend(a + b, r)
    ensures Prepend([], r) == r
  {
    if r.Some? {
      assert a + (b + r.value) == a + b + r.value && [] + r.value == r.value;
    }
  }

  method EscapeField(field: string) returns (out: string)
    ensures out == Escape(field)
  {
    hide EscapeChar;
    out := "";
    assert field[0..] == field;
    for i := 0 to |field|
      invariant out + Escape(field[i..]) == Escape(field)
    {
      assert field[i..][1..] == field[i + 1..];
      var e := EscapeChar(field[i]);
      assert out + (e + Escape(field[i + 1..])) == out + e + Escape(field[i + 1..]);
      out := out + e;
    }
    assert field[|field|..] == [] && out + [] == out;
  }

  method UnescapeField(field: string) returns (r: Option<string>)
    ensures r == Unescape(field)
  {
    var out, i := "", 0;
    assert field[0..] == field;
    PrependTwice([], [], Unescape(field));
    while i < |field|
      invariant i <= |field|
      invariant Unescape(field) == Prepend(out, Unescape(field[i..]))
    {
      var c := field[i];
      if c != '%' {
        assert field[i..][1..] == field[i + 1..];
        PrependTwice(out, [c], Unescape(field[i + 1..]));
        out, i := out + [c], i + 1;
        continue;
      }
      if i + 2 >= |field| {
        return None;
      }
      var plain := Escaped(field[i + 1], field[i + 2]);
      if plain.None? {
        return None;
      }
      assert field[i..][3..] == field[i + 3..];
      PrependTwice(out, [plain.value], Unescape(field[i + 3..]));
      out, i := out + [plain.value], i + 3;
    }
    assert field[i..] == [] && out + [] == out;
    r := Some(out);
  }

  lemma {:induction false} UnescapeEscape(s: string)
    ensures Unescape(Escape(s)) == Some(s)
    ensures '|' !in Escape(s)
  {
    if s != [] {
      UnescapeEscape(s[1..]);
      var e, rest := EscapeChar(s[0]), Escape(s[1..]);
      assert s == [s[0]] + s[1..];
      assert (e + rest)[|e|..] == rest;
    }
  }

  /** Character by character: percent and bar are escaped, in upper case, and nothing else is touched. */
  lemma {:induction false} EscapeExact(s: string, c: char)
    ensures Escape([]) == [] && Escape(['%']) == "%25" && Escape(['|']) == "%7C"
    ensures c != '%' && c != '|' ==> Escape([c]) == [c]
    ensures Escape(s + [c]) == Escape(s) + Escape([c])
  {
    assert ['%'][1..] == [] && ['|'][1..] == [] && [c][1..] == [];
    assert EscapeChar('%') + [] == "%25" && EscapeChar('|') + [] == "%7C" && EscapeChar(c) + [] == EscapeChar(c);
    if s != [] {
      EscapeExact(s[1..], c);
      assert (s + [c])[1..] == s[1..] + [c] && (s + [c])[0] == s[0];
      var e := EscapeChar(s[0]);
      assert e + (Escape(s[1..]) + EscapeChar(c)) == e + Escape(s[1..]) + EscapeChar(c);
    } else {
      assert s + [c] == [c] && [] + Escape([c]) == Escape([c]);
    }
  }

  // Epochs.

  function DecValue(s: string): nat
    requires forall i :: 0 <= i < |s| ==> Digit(s[i])
  {
    if s == [] then 0 else DecValue(s[..|s| - 1]) * 10 + DigitValue(s[|s| - 1])
  }

  predicate AllDigits(s: string) {
    forall i :: 0 <= i < |s| ==> Digit(s[i])
  }

  /** An unsigned 64-bit number as the standard library parses it: a plus sign may lead. */
  function ParseEpoch(s: string): Option<nat> {
    var digits := if s != [] && s[0] == '+' then s[1..] else s;
    if digits == [] || !AllDigits(digits) then None
    else if DecValue(digits) < U64 then Some(DecValue(digits)) else None
  }

  /** A number is read exactly from one or more digits, after a plus sign or none, and only below 2^64. */
  lemma EpochIff(s: string, n: nat)
    ensures ParseEpoch(s) == Some(n) <==>
              n < 0x1_0000_0000_0000_0000 && exists digits :: (s == digits || s == "+" + digits) && Spells(digits, n)
  {
    hide DecValue;
    var digits := if s != [] && s[0] == '+' then s[1..] else s;
    if ParseEpoch(s) == Some(n) {
      assert s == digits || s == "+" + digits;
      assert Spells(digits, n);
    }
    if exists digits :: (s == digits || s == "+" + digits) && Spells(digits, n) {
      var d :| (s == d || s == "+" + d) && Spells(d, n);
      assert Digit(d[0]);
      assert d == digits;
    }
  }

  ghost predicate Spells(digits: string, n: nat) {
    digits != [] && AllDigits(digits) && DecValue(digits) == n
  }

  lemma {:induction false} DecValueOfText(n: nat)
    ensures DecValue(DecText(n)) == n
  {
    if n >= 10 {
      DecValueOfText(n / 10);
      assert DecText(n)[..|DecText(n)| - 1] == DecText(n / 10);
    } else {
      assert DecText(n)[..0] == [];
    }
  }

  lemma EpochReadsBack(n: nat)
    requires n < U64
    ensures ParseEpoch(DecText(n)) == Some(n)
  {
    DecValueOfText(n);
    assert Digit(DecText(n)[0]);
  }

  // Writing.

  function FieldsOf(g: Grant): (r: seq<string>)
    ensures |r| >= 4
  {
    ["label=" + Escape(g.caption), g.alg + "=" + g.thumbprint, "start=" + DecText(g.start), "end=" + DecText(g.end)]
    + if g.seen.Some? then ["seen=" + DecText(g.seen.value)] else []
  }

  function Encode(g: Grant): string {
    PREFIX + Join(FieldsOf(g), '|')
  }

  // Reading.

  /** A field at its first equals sign. */
  function Cut(field: string): (r: Option<(string, string)>)
    ensures r.Some? ==> '=' !in r.value.0 && field == r.value.0 + "=" + r.value.1
    ensures r.None? <==> '=' !in field
  {
    if field == [] then None
    else if field[0] == '=' then Some(([], field[1..]))
    else
      var rest := Cut(field[1..]);
      assert field == [field[0]] + field[1..];
      if rest.None? then None else Some(([field[0]] + rest.value.0, rest.value.1))
  }

  datatype Partial = Partial(caption: Option<string>, alg: Option<string>, start: Option<nat>, end: Option<nat>,
                             seen: Option<nat>, keys: seq<string>)

  const EMPTY := Partial(None, None, None, None, None, [])

  function TakeField(p: Partial, field: string): Result<Partial, Error> {
    match Cut(field)
    case None => Err(NotAField)
    case Some((key, raw)) =>
      if key in p.keys then Err(Duplicate)
      else
        var p := p.(keys := p.keys + [key]);
        if key == ES256 then
          if p.alg.Some? then Err(Algorithms(2))
          else if !IsThumbprint(raw) then Err(BadValue("thumbprint"))
          else Ok(p.(alg := Some(raw)))
        else if key == "label" then
          var text := Unescape(raw);
          if text.None? then Err(BadEscape)
          else if !Printable(text.value) then Err(BadValue("label"))
          else Ok(p.(caption := text))
        else if key == "start" then
          if ParseEpoch(raw).None? then Err(BadValue("start")) else Ok(p.(start := ParseEpoch(raw)))
        else if key == "end" then
          if ParseEpoch(raw).None? then Err(BadValue("end")) else Ok(p.(end := ParseEpoch(raw)))
        else if key == "seen" then
          if ParseEpoch(raw).None? then Err(BadValue("seen")) else Ok(p.(seen := ParseEpoch(raw)))
        else Ok(p)
  }

  function Taken(fields: seq<string>): Result<Partial, Error> {
    if fields == [] then Ok(EMPTY)
    else
      var before := Taken(fields[..|fields| - 1]);
      if before.Err? then before else TakeField(before.value, fields[|fields| - 1])
  }

  function Finish(p: Partial): Result<Grant, Error> {
    if p.alg.None? then Err(Algorithms(0))
    else if p.start.None? then Err(Missing("start"))
    else if p.end.None? then Err(Missing("end"))
    else
      var caption := if p.caption.Some? then p.caption.value else "";
      Ok(Grant(caption, ES256, p.alg.value, p.start.value, p.end.value, p.seen))
  }

  function Decoded(value: string): Result<Grant, Error> {
    if !(PREFIX <= value) then Err(NotAGrant)
    else
      var p := Taken(Split(value[|PREFIX|..], '|'));
      if p.Err? then Err(p.error) else Finish(p.value)
  }

  lemma {:induction false} TakenErrStays(fields: seq<string>, k: nat)
    requires k <= |fields| && Taken(fields[..k]).Err?
    ensures Taken(fields) == Taken(fields[..k])
    decreases |fields|
  {
    if k < |fields| {
      var init := fields[..|fields| - 1];
      assert init[..k] == fields[..k];
      TakenErrStays(init, k);
    } else {
      assert fields[..k] == fields;
    }
  }

  method Decode(value: string) returns (r: Result<Grant, Error>)
    ensures r == Decoded(value)
  {
    hide TakeField;
    if !(PREFIX <= value) {
      return Err(NotAGrant);
    }
    var fields, p := Split(value[|PREFIX|..], '|'), EMPTY;
    for i := 0 to |fields|
      invariant Taken(fields[..i]) == Ok(p)
    {
      assert fields[..i + 1][..i] == fields[..i];
      var next := TakeField(p, fields[i]);
      if next.Err? {
        TakenErrStays(fields, i + 1);
        return Err(next.error);
      }
      p := next.value;
    }
    assert fields[..|fields|] == fields;
    r := Finish(p);
  }

  // What a value says, independent of the order of its fields.

  predicate Readable(key: string, raw: string) {
    if key == ES256 then IsThumbprint(raw)
    else if key == "label" then Unescape(raw).Some? && Printable(Unescape(raw).value)
    else if key == "start" || key == "end" || key == "seen" then ParseEpoch(raw).Some?
    else true
  }

  predicate FieldOk(field: string) {
    Cut(field).Some? && Readable(Cut(field).value.0, Cut(field).value.1)
  }

  function KeyOf(field: string): string {
    if Cut(field).Some? then Cut(field).value.0 else ""
  }

  ghost predicate WellFormed(fields: seq<string>) {
    && (forall i :: 0 <= i < |fields| ==> FieldOk(fields[i]))
    && (forall i, j :: 0 <= i < j < |fields| ==> KeyOf(fields[i]) != KeyOf(fields[j]))
  }

  /** Some field says `key=raw`. */
  ghost predicate Says(fields: seq<string>, key: string, raw: string) {
    exists i :: 0 <= i < |fields| && Cut(fields[i]) == Some((key, raw))
  }

  ghost predicate SaysNothing(fields: seq<string>, key: string) {
    forall raw :: !Says(fields, key, raw)
  }

  ghost predicate SaysEpoch(fields: seq<string>, key: string, n: nat) {
    exists raw :: Says(fields, key, raw) && ParseEpoch(raw) == Some(n)
  }

  ghost predicate SaysLabel(fields: seq<string>, caption: string) {
    exists raw :: Says(fields, "label", raw) && Unescape(raw) == Some(caption)
  }

  /** The fields describe this grant: each required key once, each recognized value readable. */
  ghost predicate Describes(fields: seq<string>, g: Grant) {
    && WellFormed(fields)
    && g.alg == ES256
    && Says(fields, ES256, g.thumbprint)
    && SaysEpoch(fields, "start", g.start)
    && SaysEpoch(fields, "end", g.end)
    && (if g.seen.Some? then SaysEpoch(fields, "seen", g.seen.value) else SaysNothing(fields, "seen"))
    && (SaysLabel(fields, g.caption) || (SaysNothing(fields, "label") && g.caption == ""))
  }

  /** The value the last field of that key carries. */
  ghost function Raw(fields: seq<string>, key: string): Option<string> {
    if fields == [] then None
    else
      var cut := Cut(fields[|fields| - 1]);
      if cut.Some? && cut.value.0 == key then Some(cut.value.1) else Raw(fields[..|fields| - 1], key)
  }

  ghost function Epoch(raw: Option<string>): Option<nat> {
    if raw.Some? then ParseEpoch(raw.value) else None
  }

  ghost function Label(raw: Option<string>): Option<string> {
    if raw.Some? then Unescape(raw.value) else None
  }

  lemma {:induction false} RawSays(fields: seq<string>, key: string)
    requires WellFormed(fields)
    ensures Raw(fields, key).None? <==> SaysNothing(fields, key)
    ensures forall raw :: Says(fields, key, raw) <==> Raw(fields, key) == Some(raw)
  {
    hide FieldOk;
    if fields != [] {
      var init, last := fields[..|fields| - 1], fields[|fields| - 1];
      RawSays(init, key);
      assert FieldOk(last);
      FieldOkCuts(last);
      forall raw ensures Says(fields, key, raw) <==> Says(init, key, raw) || Cut(last) == Some((key, raw)) {
        SaysSnoc(init, last, key, raw);
        assert fields == init + [last];
      }
      if KeyOf(last) == key {
        forall raw ensures !Says(init, key, raw) {
          forall i | 0 <= i < |init| ensures Cut(init[i]) != Some((key, raw)) {
            assert KeyOf(fields[i]) != KeyOf(last);
          }
        }
        assert Says(fields, key, Cut(last).value.1);
      }
    }
  }

  lemma FieldOkCuts(field: string)
    requires FieldOk(field)
    ensures Cut(field).Some?
  {
  }

  lemma SaysSnoc(init: seq<string>, last: string, key: string, raw: string)
    ensures Says(init + [last], key, raw) <==> Says(init, key, raw) || Cut(last) == Some((key, raw))
  {
    var fields := init + [last];
    if Says(init, key, raw) {
      var i :| 0 <= i < |init| && Cut(init[i]) == Some((key, raw));
      assert Cut(fields[i]) == Some((key, raw));
    }
    if Cut(last) == Some((key, raw)) {
      assert Cut(fields[|init|]) == Some((key, raw));
    }
  }

  /** What the reader's locals hold after the fields so far. */
  ghost predicate Holds(p: Partial, fields: seq<string>) {
    && p.alg == Raw(fields, ES256)
    && p.caption == Label(Raw(fields, "label"))
    && p.start == Epoch(Raw(fields, "start"))
    && p.end == Epoch(Raw(fields, "end"))
    && p.seen == Epoch(Raw(fields, "seen"))
    && |p.keys| == |fields|
    && forall i :: 0 <= i < |fields| ==> p.keys[i] == KeyOf(fields[i])
  }

  /** One field more: accepted exactly when it is well-formed and its key is new. */
  lemma TakeFieldSpec(p: Partial, init: seq<string>, last: string)
    requires Holds(p, init) && (ES256 !in p.keys ==> p.alg.None?)
    ensures TakeField(p, last).Ok? <==> FieldOk(last) && KeyOf(last) !in p.keys
    ensures TakeField(p, last).Ok? ==> Holds(TakeField(p, last).value, init + [last])
  {
    hide Holds, Cut, Unescape, ParseEpoch, IsThumbprint, Printable, TakeField, FieldOk, KeyOf;
    assert ES256 in p.keys || p.alg.None?;
    TakeFieldForm(p, last);
    if TakeField(p, last).Ok? {
      NotedHolds(p, init, last);
    }
  }

  /** The locals after a field `key=raw` was accepted. */
  ghost function Noted(p: Partial, key: string, raw: string): Partial {
    Partial(
      if key == "label" then Unescape(raw) else p.caption,
      if key == ES256 then Some(raw) else p.alg,
      if key == "start" then ParseEpoch(raw) else p.start,
      if key == "end" then ParseEpoch(raw) else p.end,
      if key == "seen" then ParseEpoch(raw) else p.seen,
      p.keys + [key])
  }

  lemma TakeFieldForm(p: Partial, last: string)
    requires ES256 in p.keys || p.alg.None?
    ensures TakeField(p, last).Ok? <==> FieldOk(last) && KeyOf(last) !in p.keys
    ensures TakeField(p, last).Ok? ==>
              Cut(last).Some? && TakeField(p, last).value == Noted(p, Cut(last).value.0, Cut(last).value.1)
  {
    hide Cut, Unescape, ParseEpoch, IsThumbprint, Printable;
  }

  lemma NotedHolds(p: Partial, init: seq<string>, last: string)
    requires Holds(p, init) && Cut(last).Some?
    ensures Holds(Noted(p, Cut(last).value.0, Cut(last).value.1), init + [last])
  {
    hide Cut, Unescape, ParseEpoch, Raw;
    RawSnoc(init, last);
    assert KeyOf(last) == Cut(last).value.0;
  }

  lemma RawSnoc(init: seq<string>, last: string)
    ensures forall key :: Raw(init + [last], key) ==
              if Cut(last).Some? && Cut(last).value.0 == key then Some(Cut(last).value.1) else Raw(init, key)
  {
    assert (init + [last])[..|init|] == init;
  }

  lemma WellFormedSnoc(init: seq<string>, last: string)
    ensures WellFormed(init + [last]) <==>
              WellFormed(init) && FieldOk(last) && forall i :: 0 <= i < |init| ==> KeyOf(init[i]) != KeyOf(last)
  {
    hide FieldOk, KeyOf;
    var fields := init + [last];
    assert fields[|init|] == last;
    assert forall i :: 0 <= i < |init| ==> fields[i] == init[i];
    if WellFormed(fields) {
      forall i | 0 <= i < |init| ensures KeyOf(init[i]) != KeyOf(last) {
        assert KeyOf(fields[i]) != KeyOf(fields[|init|]);
      }
      forall i | 0 <= i < |init| ensures FieldOk(init[i]) {
        assert FieldOk(fields[i]);
      }
      forall i, j | 0 <= i < j < |init| ensures KeyOf(init[i]) != KeyOf(init[j]) {
        assert KeyOf(fields[i]) != KeyOf(fields[j]);
      }
    }
  }

  lemma {:induction false} NoKeyNoRaw(fields: seq<string>, key: string)
    requires forall i :: 0 <= i < |fields| ==> KeyOf(fields[i]) != key
    ensures Raw(fields, key).None?
  {
    if fields != [] {
      NoKeyNoRaw(fields[..|fields| - 1], key);
      assert KeyOf(fields[|fields| - 1]) != key;
    }
  }

  lemma {:induction false} TakenSpec(fields: seq<string>)
    ensures Taken(fields).Ok? <==> WellFormed(fields)
    ensures Taken(fields).Ok? ==> Holds(Taken(fields).value, fields)
  {
    hide TakeField, WellFormed, FieldOk, Raw, KeyOf;
    if fields == [] {
      EmptyHolds();
    } else {
      var init, last := fields[..|fields| - 1], fields[|fields| - 1];
      assert fields == init + [last];
      TakenSpec(init);
      WellFormedSnoc(init, last);
      if Taken(init).Ok? {
        var p := Taken(init).value;
        if ES256 !in p.keys {
          assert forall i :: 0 <= i < |init| ==> p.keys[i] == KeyOf(init[i]);
          NoKeyNoRaw(init, ES256);
        }
        TakeFieldSpec(p, init, last);
        assert KeyOf(last) in p.keys <==> exists i :: 0 <= i < |init| && KeyOf(init[i]) == KeyOf(last);
      }
    }
  }

  lemma EmptyHolds()
    ensures WellFormed([]) && Holds(EMPTY, [])
  {
  }

  /**
   The reader is exactly the order-free reading: it returns a grant if and only if the fields
   describe that grant.
   */
  lemma DecodedIffDescribed(value: string, g: Grant)
    ensures Decoded(value) == Ok(g) <==> PREFIX <= value && Describes(Split(value[|PREFIX|..], '|'), g)
  {
    hide Taken, WellFormed, Says, SaysNothing, Raw, ParseEpoch, Unescape;
    if PREFIX <= value {
      var fields := Split(value[|PREFIX|..], '|');
      TakenSpec(fields);
      if WellFormed(fields) {
        var p := Taken(fields).value;
        DescribesByRaw(fields, g);
        RawReadable(fields, "label");
        RawReadable(fields, "start");
        RawReadable(fields, "end");
        RawReadable(fields, "seen");
      }
    }
  }

  /** A recognized key's value has been checked, so reading it again gives something. */
  lemma {:induction false} RawReadable(fields: seq<string>, key: string)
    requires WellFormed(fields)
    ensures Raw(fields, key).Some? ==> Readable(key, Raw(fields, key).value)
  {
    if fields != [] {
      assert FieldOk(fields[|fields| - 1]);
      RawReadable(fields[..|fields| - 1], key);
    }
  }

  lemma DescribesByRaw(fields: seq<string>, g: Grant)
    requires WellFormed(fields)
    ensures Describes(fields, g) <==>
              && g.alg == ES256
              && Raw(fields, ES256) == Some(g.thumbprint)
              && Epoch(Raw(fields, "start")) == Some(g.start)
              && Epoch(Raw(fields, "end")) == Some(g.end)
              && (if g.seen.Some? then Epoch(Raw(fields, "seen")) == g.seen else Raw(fields, "seen").None?)
              && (if Raw(fields, "label").None? then g.caption == ""
                  else Label(Raw(fields, "label")) == Some(g.caption))
  {
    hide WellFormed, Says, Raw, ParseEpoch, Unescape;
    RawSays(fields, ES256);
    RawSays(fields, "start");
    RawSays(fields, "end");
    RawSays(fields, "seen");
    RawSays(fields, "label");
    EpochByRaw(fields, "start", g.start);
    EpochByRaw(fields, "end", g.end);
    if g.seen.Some? {
      EpochByRaw(fields, "seen", g.seen.value);
    }
    if SaysLabel(fields, g.caption) {
      var raw :| Says(fields, "label", raw) && Unescape(raw) == Some(g.caption);
    }
    if Raw(fields, "label").Some? {
      assert Says(fields, "label", Raw(fields, "label").value);
    }
  }

  lemma EpochByRaw(fields: seq<string>, key: string, n: nat)
    requires WellFormed(fields)
    ensures SaysEpoch(fields, key, n) <==> Epoch(Raw(fields, key)) == Some(n)
  {
    hide WellFormed, Says, Raw, ParseEpoch;
    RawSays(fields, key);
    if Raw(fields, key).Some? {
      assert Says(fields, key, Raw(fields, key).value);
    }
  }

  /** Why a field on its own is refused. */
  function Fault(field: string): Error
    requires !FieldOk(field)
  {
    if '=' !in field then NotAField
    else if KeyOf(field) == "es256" then BadValue("thumbprint")
    else if KeyOf(field) == "label" then
      if Unescape(Cut(field).value.1).None? then BadEscape else BadValue("label")
    else BadValue(KeyOf(field))
  }

  /** Why field k is refused after fields that are well-formed: it repeats a key, or does not read. */
  ghost function Refusal(fields: seq<string>, k: nat): Error
    requires k < |fields|
  {
    if FieldOk(fields[k]) || (Cut(fields[k]).Some? && Repeated(fields, k)) then Duplicate else Fault(fields[k])
  }

  ghost predicate Repeated(fields: seq<string>, k: nat)
    requires k < |fields|
  {
    exists i :: 0 <= i < k && KeyOf(fields[i]) == KeyOf(fields[k])
  }

  /** Of a value that is a grant's, the first field that makes it ill-formed decides which error it gives. */
  lemma FirstErrorDecides(value: string, k: nat)
    requires PREFIX <= value
    requires var fields := Split(value[|PREFIX|..], '|');
             k < |fields| && WellFormed(fields[..k]) && !WellFormed(fields[..k + 1])
    ensures Decoded(value) == Err(Refusal(Split(value[|PREFIX|..], '|'), k))
  {
    hide WellFormed, Taken, Refusal;
    TakenRefuses(Split(value[|PREFIX|..], '|'), k);
  }

  lemma TakenRefuses(fields: seq<string>, k: nat)
    requires k < |fields| && WellFormed(fields[..k]) && !WellFormed(fields[..k + 1])
    ensures Taken(fields) == Err(Refusal(fields, k))
  {
    hide WellFormed, Raw, FieldOk, KeyOf, Cut, TakeField, Fault, Holds;
    var init, last := fields[..k], fields[k];
    assert fields[..k + 1][..k] == init;
    TakenSpec(init);
    TakenSpec(fields[..k + 1]);
    var p := Taken(init).value;
    KeysSeen(p, init, KeyOf(last));
    assert forall i :: 0 <= i < k ==> init[i] == fields[i];
    TakenErrStays(fields, k + 1);
    FaultOf(p, last);
  }

  lemma KeysSeen(p: Partial, init: seq<string>, key: string)
    requires Holds(p, init)
    ensures key in p.keys <==> exists i :: 0 <= i < |init| && KeyOf(init[i]) == key
    ensures ES256 in p.keys || p.alg.None?
  {
    hide KeyOf;
    if ES256 !in p.keys {
      assert forall i :: 0 <= i < |init| ==> p.keys[i] == KeyOf(init[i]);
      NoKeyNoRaw(init, ES256);
    }
  }

  lemma FaultOf(p: Partial, last: string)
    requires ES256 in p.keys || p.alg.None?
    requires TakeField(p, last).Err?
    ensures TakeField(p, last).error ==
              if FieldOk(last) || (Cut(last).Some? && KeyOf(last) in p.keys) then Duplicate else Fault(last)
  {
    hide Unescape, ParseEpoch, IsThumbprint, Printable;
  }

  /** What is still an error when every field is well-formed. */
  lemma MissingDecides(value: string)
    ensures !(PREFIX <= value) <==> Decoded(value) == Err(NotAGrant)
    ensures PREFIX <= value && WellFormed(Split(value[|PREFIX|..], '|')) ==>
              var fields := Split(value[|PREFIX|..], '|');
              if SaysNothing(fields, "es256") then Decoded(value) == Err(Algorithms(0))
              else if SaysNothing(fields, "start") then Decoded(value) == Err(Missing("start"))
              else if SaysNothing(fields, "end") then Decoded(value) == Err(Missing("end"))
              else Decoded(value).Ok?
  {
    hide WellFormed, SaysNothing, Says, Raw, ParseEpoch, Unescape, TakeField;
    if PREFIX <= value {
      var fields := Split(value[|PREFIX|..], '|');
      NeverNotAGrant(fields);
      TakenSpec(fields);
      if WellFormed(fields) {
        RawSays(fields, ES256);
        RawSays(fields, "start");
        RawSays(fields, "end");
        RawReadable(fields, "start");
        RawReadable(fields, "end");
      }
    }
  }

  lemma {:induction false} NeverNotAGrant(fields: seq<string>)
    ensures Taken(fields) != Err(NotAGrant)
  {
    if fields != [] {
      NeverNotAGrant(fields[..|fields| - 1]);
    }
  }

  /** The order of the fields does not matter: a rearranged value reads as the same grant. */
  lemma OrderFree(a: seq<string>, b: seq<string>, g: Grant)
    requires a != [] && b != [] && Clean(a, '|') && Clean(b, '|')
    requires multiset(a) == multiset(b)
    ensures Decoded(PREFIX + Join(a, '|')) == Ok(g) <==> Decoded(PREFIX + Join(b, '|')) == Ok(g)
  {
    hide Decoded, Describes;
    ReadsJoined(a, g);
    ReadsJoined(b, g);
    if Describes(a, g) {
      RearrangedDescribes(a, b, g);
    }
    if Describes(b, g) {
      RearrangedDescribes(b, a, g);
    }
  }

  lemma ReadsJoined(fields: seq<string>, g: Grant)
    requires fields != [] && Clean(fields, '|')
    ensures Decoded(PREFIX + Join(fields, '|')) == Ok(g) <==> Describes(fields, g)
  {
    hide Decoded, Describes;
    var value := PREFIX + Join(fields, '|');
    SplitJoin(fields, '|');
    assert value[|PREFIX|..] == Join(fields, '|');
    DecodedIffDescribed(value, g);
  }

  lemma RearrangedDescribes(a: seq<string>, b: seq<string>, g: Grant)
    requires multiset(a) == multiset(b) && Describes(a, g)
    ensures Describes(b, g)
  {
    hide FieldOk, KeyOf, Cut;
    forall key, raw ensures Says(a, key, raw) <==> Says(b, key, raw) {
      if Says(a, key, raw) {
        SaysRearranged(a, b, key, raw);
      }
      if Says(b, key, raw) {
        SaysRearranged(b, a, key, raw);
      }
    }
    RearrangedWellFormed(a, b);
  }

  lemma SaysRearranged(a: seq<string>, b: seq<string>, key: string, raw: string)
    requires multiset(a) == multiset(b) && Says(a, key, raw)
    ensures Says(b, key, raw)
  {
    var i :| 0 <= i < |a| && Cut(a[i]) == Some((key, raw));
    assert a[i] in multiset(b);
    var j :| 0 <= j < |b| && b[j] == a[i];
    assert Cut(b[j]) == Some((key, raw));
  }

  lemma RearrangedWellFormed(a: seq<string>, b: seq<string>)
    requires multiset(a) == multiset(b) && WellFormed(a)
    ensures WellFormed(b)
  {
    hide FieldOk, KeyOf;
    forall i | 0 <= i < |b| ensures FieldOk(b[i]) {
      assert b[i] in multiset(a);
      var k :| 0 <= k < |a| && a[k] == b[i];
      assert FieldOk(a[k]);
    }
    forall i, j | 0 <= i < j < |b| ensures KeyOf(b[i]) != KeyOf(b[j]) {
      assert b[i] in multiset(a) && b[j] in multiset(a);
      var m :| 0 <= m < |a| && a[m] == b[i];
      var n :| 0 <= n < |a| && a[n] == b[j];
      if m == n {
        TwiceCounts(b, i, j);
        OnceCounts(a, m);
        assert false;
      } else if m < n {
        assert KeyOf(a[m]) != KeyOf(a[n]);
      } else {
        assert KeyOf(a[n]) != KeyOf(a[m]);
      }
    }
  }

  lemma TwiceCounts(s: seq<string>, i: nat, j: nat)
    requires i < j < |s| && s[i] == s[j]
    ensures multiset(s)[s[i]] >= 2
  {
    assert s == s[..j] + s[j..];
    assert s[i] in s[..j] && s[j] in s[j..];
    assert multiset(s) == multiset(s[..j]) + multiset(s[j..]);
    assert s[..j][i] == s[i] && s[j..][0] == s[j];
  }

  lemma OnceCounts(s: seq<string>, m: nat)
    requires m < |s| && forall i, j :: 0 <= i < j < |s| ==> KeyOf(s[i]) != KeyOf(s[j])
    ensures multiset(s)[s[m]] == 1
  {
    hide KeyOf;
    var before, after := s[..m], s[m + 1..];
    assert s == before + [s[m]] + after;
    assert forall i :: 0 <= i < |before| ==> KeyOf(before[i]) != KeyOf(s[m]);
    assert forall i :: 0 <= i < |after| ==> after[i] == s[m + 1 + i];
    forall i | 0 <= i < |after| ensures KeyOf(after[i]) != KeyOf(s[m]) {
      assert KeyOf(s[m]) != KeyOf(s[m + 1 + i]);
    }
    assert s[m] !in before && s[m] !in after;
    assert multiset(s) == multiset(before) + multiset([s[m]]) + multiset(after);
  }

  // Round trips.

  /** What the issuer constructs before it stores a grant. */
  predicate Storable(g: Grant) {
    g.alg == ES256 && IsThumbprint(g.thumbprint) && Printable(g.caption)
    && g.start < U64 && g.end < U64 && (g.seen.Some? ==> g.seen.value < U64)
  }

  lemma {:induction false} CutOf(key: string, raw: string)
    requires '=' !in key
    ensures Cut(key + "=" + raw) == Some((key, raw))
  {
    var field := key + "=" + raw;
    if key == [] {
      assert field[1..] == raw;
    } else {
      CutOf(key[1..], raw);
      assert field[1..] == key[1..] + "=" + raw;
      assert key == [key[0]] + key[1..];
    }
  }

  lemma CutsOf(g: Grant)
    requires Storable(g)
    ensures var f := FieldsOf(g);
            && Cut(f[0]) == Some(("label", Escape(g.caption))) && Cut(f[1]) == Some((ES256, g.thumbprint))
            && Cut(f[2]) == Some(("start", DecText(g.start))) && Cut(f[3]) == Some(("end", DecText(g.end)))
            && (g.seen.Some? ==> |f| == 5 && Cut(f[4]) == Some(("seen", DecText(g.seen.value))))
            && (g.seen.None? ==> |f| == 4)
  {
    hide Cut, Escape, DecText;
    CutOf("label", Escape(g.caption));
    CutOf(ES256, g.thumbprint);
    CutOf("start", DecText(g.start));
    CutOf("end", DecText(g.end));
    assert "label=" == "label" + "=" && "start=" == "start" + "=" && "end=" == "end" + "=" && "seen=" == "seen" + "=";
    if g.seen.Some? {
      CutOf("seen", DecText(g.seen.value));
    }
  }

  lemma FieldsClean(g: Grant)
    requires Storable(g)
    ensures Clean(FieldsOf(g), '|')
  {
    hide DecText;
    UnescapeEscape(g.caption);
    DecClean(g.start);
    DecClean(g.end);
    if g.seen.Some? {
      DecClean(g.seen.value);
    }
    assert '|' !in g.thumbprint by {
      assert forall i :: 0 <= i < |g.thumbprint| ==> Base64Url(g.thumbprint[i]);
    }
  }

  lemma DecClean(n: nat)
    ensures '|' !in DecText(n)
  {
    assert forall i :: 0 <= i < |DecText(n)| ==> Digit(DecText(n)[i]);
  }

  lemma FieldsDescribe(g: Grant)
    requires Storable(g)
    ensures Describes(FieldsOf(g), g)
  {
    hide Cut, Escape, DecText, FieldsOf, Unescape, ParseEpoch, IsThumbprint, Printable;
    var f := FieldsOf(g);
    CutsOf(g);
    UnescapeEscape(g.caption);
    EpochReadsBack(g.start);
    EpochReadsBack(g.end);
    assert Says(f, "label", Escape(g.caption));
    assert Says(f, ES256, g.thumbprint);
    assert Says(f, "start", DecText(g.start));
    assert Says(f, "end", DecText(g.end));
    if g.seen.Some? {
      EpochReadsBack(g.seen.value);
      assert Says(f, "seen", DecText(g.seen.value));
    }
  }

  /** Whatever the label holds, the stored value reads back as the very grant that was stored. */
  lemma DecodeEncode(g: Grant)
    requires Storable(g)
    ensures Decoded(Encode(g)) == Ok(g)
  {
    hide Decoded, Describes, FieldsOf;
    FieldsClean(g);
    FieldsDescribe(g);
    ReadsJoined(FieldsOf(g), g);
  }

  /** The stored text, spelled out. */
  lemma EncodedShape(g: Grant)
    requires g.alg == "es256"
    ensures Encode(g) == "kbkey1|label=" + Escape(g.caption) + "|es256=" + g.thumbprint
                         + "|start=" + DecText(g.start) + "|end=" + DecText(g.end)
                         + if g.seen.Some? then "|seen=" + DecText(g.seen.value) else ""
  {
    hide Escape, DecText, Join;
    var f := FieldsOf(g);
    assert f[1] == "es256=" + g.thumbprint;
    JoinRest(f[0], f[1..]);
    JoinRest(f[1], f[2..]);
    JoinRest(f[2], f[3..]);
    JoinRest(f[3], f[4..]);
    assert [f[0]] + f[1..] == f && [f[1]] + f[2..] == f[1..] && [f[2]] + f[3..] == f[2..] && [f[3]] + f[4..] == f[3..];
    var tail := if g.seen.Some? then "|seen=" + DecText(g.seen.value) else "";
    if g.seen.Some? {
      JoinRest(f[4], []);
      assert f[4..] == [f[4]] + [];
      assert "|" + (f[4] + "") == tail;
    }
    Regroup(Escape(g.caption), g.thumbprint, DecText(g.start), DecText(g.end), tail);
  }

  /** The same text, its separators grouped with the names. */
  lemma Regroup(l: string, k: string, s: string, e: string, tail: string)
    ensures "kbkey1|" + (("label=" + l)
              + ("|" + (("es256=" + k) + ("|" + (("start=" + s) + ("|" + (("end=" + e) + tail)))))))
         == "kbkey1|label=" + l + "|es256=" + k + "|start=" + s + "|end=" + e + tail
  {
    Bar("end=", e, tail, "|end=");
    Bar("start=", s, "|end=" + e + tail, "|start=");
    Bar("es256=", k, "|start=" + s + ("|end=" + e + tail), "|es256=");
    assert "kbkey1|" + "label=" == "kbkey1|label=";
  }

  lemma Bar(name: string, x: string, rest: string, barred: string)
    requires barred == "|" + name
    ensures "|" + ((name + x) + rest) == barred + x + rest
  {
  }

  lemma JoinRest(first: string, rest: seq<string>)
    ensures Join([first] + rest, '|') == first + if rest == [] then "" else "|" + Join(rest, '|')
  {
    assert ([first] + rest)[1..] == rest;
    if rest != [] {
      assert first + "|" + Join(rest, '|') == first + ("|" + Join(rest, '|'));
    } else {
      assert first + "" == first;
    }
  }

  // Labels.

  function Width(c: char): nat {
    if c < '\U{80}' then 1 else if c < '\U{800}' then 2 else if c < '\U{10000}' then 3 else 4
  }

  function Octets(s: string): nat {
    if s == [] then 0 else Width(s[0]) + Octets(s[1..])
  }

  function Cost(c: char): (r: nat)
    ensures r == Octets(EscapeChar(c))
  {
    assert Octets([c]) == Width(c) + Octets([c][1..]);
    assert Octets("%25") == 3 by {
      assert "%25"[1..] == "25" && "25"[1..] == "5" && "5"[1..] == "";
    }
    assert Octets("%7C") == 3 by {
      assert "%7C"[1..] == "7C" && "7C"[1..] == "C" && "C"[1..] == "";
    }
    if c == '%' || c == '|' then 3 else Width(c)
  }

  function Clamped(raw: string, room: nat): string {
    if raw == [] then []
    else if Control(raw[0]) then Clamped(raw[1..], room)
    else if Cost(raw[0]) > room then []
    else [raw[0]] + Clamped(raw[1..], room - Cost(raw[0]))
  }

  method SanitizeLabel(raw: string) returns (out: string)
    ensures out == Clamped(raw, 96)
  {
    hide Control, Cost;
    out := "";
    var escaped := 0;
    assert raw[0..] == raw;
    for i := 0 to |raw|
      invariant escaped <= MAX_LABEL
      invariant out + Clamped(raw[i..], MAX_LABEL - escaped) == Clamped(raw, MAX_LABEL)
    {
      var c := raw[i];
      assert raw[i..][1..] == raw[i + 1..];
      if Control(c) {
        continue;
      }
      if escaped + Cost(c) > MAX_LABEL {
        assert out + [] == out;
        break;
      }
      ghost var rest := Clamped(raw[i + 1..], MAX_LABEL - escaped - Cost(c));
      assert out + ([c] + rest) == out + [c] + rest;
      escaped := escaped + Cost(c);
      out := out + [c];
    }
  }

  lemma {:induction false} OctetsAppend(a: string, b: string)
    ensures Octets(a + b) == Octets(a) + Octets(b)
  {
    if a == [] {
      assert a + b == b;
    } else {
      OctetsAppend(a[1..], b);
      assert (a + b)[1..] == a[1..] + b;
    }
  }

  function Visible(raw: string): string {
    if raw == [] then [] else (if Control(raw[0]) then [] else [raw[0]]) + Visible(raw[1..])
  }

  /**
   A sanitized label is printable, its escaped form fits, and it is a prefix of the visible
   characters that cannot be extended by the next one.
   */
  lemma {:induction false} ClampedSpec(raw: string, room: nat)
    ensures ClampedWell(Clamped(raw, room), Visible(raw), room)
  {
    hide Octets, Escape, Cost, Control, ClampedWell;
    if raw == [] {
      EmptyClampedWell([], room);
    } else {
      var c := raw[0];
      if Control(c) {
        ClampedSpec(raw[1..], room);
        assert Visible(raw) == Visible(raw[1..]);
      } else {
        assert Visible(raw) == [c] + Visible(raw[1..]);
        if Cost(c) <= room {
          ClampedSpec(raw[1..], room - Cost(c));
          ConsClampedWell(c, Clamped(raw[1..], room - Cost(c)), Visible(raw[1..]), room);
        } else {
          EmptyClampedWell(Visible(raw), room);
        }
      }
    }
  }

  ghost predicate ClampedWell(out: string, visible: string, room: nat) {
    && Printable(out)
    && Octets(Escape(out)) <= room
    && out <= visible
    && (|out| < |visible| ==> Octets(Escape(out)) + Cost(visible[|out|]) > room)
  }

  lemma EmptyClampedWell(visible: string, room: nat)
    requires visible == [] || Cost(visible[0]) > room
    ensures ClampedWell([], visible, room)
  {
  }

  lemma ConsClampedWell(c: char, out: string, visible: string, room: nat)
    requires !Control(c) && Cost(c) <= room && ClampedWell(out, visible, room - Cost(c))
    ensures ClampedWell([c] + out, [c] + visible, room)
  {
    hide Octets, Escape, Cost;
    EscapeCost(c, out);
    assert forall i :: 0 < i < |[c] + out| ==> ([c] + out)[i] == out[i - 1];
    if |out| < |visible| {
      assert ([c] + visible)[|out| + 1] == visible[|out|];
    }
  }

  lemma EscapeCost(c: char, rest: string)
    ensures Octets(Escape([c] + rest)) == Cost(c) + Octets(Escape(rest))
  {
    hide Octets;
    assert ([c] + rest)[1..] == rest;
    OctetsAppend(EscapeChar(c), Escape(rest));
  }

  lemma {:induction false} ClampedIdempotent(out: string, room: nat)
    requires Printable(out) && Octets(Escape(out)) <= room
    ensures Clamped(out, room) == out
  {
    hide Octets, Escape, Cost, Control;
    if out != [] {
      assert out == [out[0]] + out[1..];
      EscapeCost(out[0], out[1..]);
      assert !Control(out[0]);
      ClampedIdempotent(out[1..], room - Cost(out[0]));
    }
  }

  lemma SanitizeIsIdempotent(raw: string)
    ensures Clamped(Clamped(raw, MAX_LABEL), MAX_LABEL) == Clamped(raw, MAX_LABEL)
  {
    ClampedSpec(raw, MAX_LABEL);
    ClampedIdempotent(Clamped(raw, MAX_LABEL), MAX_LABEL);
  }

  lemma {:induction false} DecTextShort(n: nat, k: nat)
    requires k >= 1 && n < Pow10(k)
    ensures |DecText(n)| <= k && Octets(DecText(n)) == |DecText(n)|
  {
    AsciiOctets(DecText(n));
    if n >= 10 {
      DecTextShort(n / 10, k - 1);
    }
  }

  lemma {:induction false} AsciiOctets(s: string)
    requires forall i :: 0 <= i < |s| ==> s[i] < '\U{80}'
    ensures Octets(s) == |s|
  {
    if s != [] {
      AsciiOctets(s[1..]);
    }
  }

  lemma EpochShort(n: nat)
    requires n < U64
    ensures Octets(DecText(n)) <= 20
  {
    assert Pow10(20) == 100_000_000_000_000_000_000 by {
      assert Pow10(4) == 10_000;
      assert Pow10(8) == 100_000_000;
      assert Pow10(12) == 1_000_000_000_000;
      assert Pow10(16) == 10_000_000_000_000_000;
    }
    DecTextShort(n, 20);
  }

  /** The directory allows 255 octets a value; every storable grant with a sanitized label fits. */
  lemma StoredValueFits(g: Grant)
    requires Storable(g) && Octets(Escape(g.caption)) <= MAX_LABEL
    ensures Octets(Encode(g)) <= 237
  {
    hide DecText, Escape, Octets;
    var f := FieldsOf(g);
    assert f[1..][1..][1..][1..] == f[4..];
    var caption, key, start, end := f[0], f[1], f[2], f[3];
    FieldOctets("label=", Escape(g.caption));
    FieldOctets("es256=", g.thumbprint);
    AsciiOctets(g.thumbprint) by {
      assert forall i :: 0 <= i < |g.thumbprint| ==> Base64Url(g.thumbprint[i]);
    }
    FieldOctets("start=", DecText(g.start));
    FieldOctets("end=", DecText(g.end));
    EpochShort(g.start);
    EpochShort(g.end);
    if g.seen.Some? {
      FieldOctets("seen=", DecText(g.seen.value));
      EpochShort(g.seen.value);
      assert f == [caption, key, start, end, f[4]];
      JoinFour(caption, key, start, end, [f[4]]);
    } else {
      assert f == [caption, key, start, end];
      JoinFour(caption, key, start, end, []);
    }
    OctetsAppend(PREFIX, Join(f, '|'));
    AsciiOctets(PREFIX);
    assert g.alg + "=" + g.thumbprint == "es256=" + g.thumbprint;
  }

  lemma FieldOctets(name: string, raw: string)
    requires forall i :: 0 <= i < |name| ==> name[i] < '\U{80}'
    ensures Octets(name + raw) == |name| + Octets(raw)
  {
    AsciiOctets(name);
    OctetsAppend(name, raw);
  }

  lemma {:induction false} JoinOctets(f: seq<string>)
    requires f != []
    ensures Octets(Join(f, '|')) == Octets(f[0]) + if |f| == 1 then 0 else 1 + Octets(Join(f[1..], '|'))
  {
    hide Octets;
    if |f| > 1 {
      OctetsAppend(f[0] + "|", Join(f[1..], '|'));
      OctetsAppend(f[0], "|");
      AsciiOctets("|");
    }
  }

  lemma JoinFour(a: string, b: string, c: string, d: string, rest: seq<string>)
    requires |rest| <= 1
    ensures Octets(Join([a, b, c, d] + rest, '|')) ==
              Octets(a) + Octets(b) + Octets(c) + Octets(d) + 3 + if rest == [] then 0 else 1 + Octets(rest[0])
  {
    hide Octets, Join;
    var f := [a, b, c, d] + rest;
    JoinOctets(f);
    assert f[1..] == [b, c, d] + rest;
    JoinOctets(f[1..]);
    assert f[1..][1..] == [c, d] + rest;
    JoinOctets(f[1..][1..]);
    assert f[1..][1..][1..] == [d] + rest;
    JoinOctets(f[1..][1..][1..]);
    if rest != [] {
      assert f[1..][1..][1..][1..] == rest;
      JoinOctets(rest);
    }
  }

  /**
   From client text to directory and back: whatever label a client sends, what the issuer stores
   fits, and every reader sees exactly that window, key and cleaned label.
   */
  lemma ClientLabelCannotForge(raw: string, thumbprint: string, start: nat, end: nat, seen: Option<nat>)
    requires IsThumbprint(thumbprint) && start < U64 && end < U64 && (seen.Some? ==> seen.value < U64)
    ensures var g := Grant(Clamped(raw, MAX_LABEL), ES256, thumbprint, start, end, seen);
            Decoded(Encode(g)) == Ok(g) && Octets(Encode(g)) <= 255
  {
    hide Decoded, Encode;
    ClampedSpec(raw, MAX_LABEL);
    var g := Grant(Clamped(raw, MAX_LABEL), ES256, thumbprint, start, end, seen);
    DecodeEncode(g);
    StoredValueFits(g);
  }
}
