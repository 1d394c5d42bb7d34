/**
 Finding the broker in DNS: the list of zones to ask, the choice among SRV records, and the rule
 that a target must live in the zone that answered. Labels are the pieces between dots.
 */
module Srv {
  import opened Wrappers
  import opened Bytes
  import opened Text

  datatype Record = Record(target: string, port: U16, priority: U16, weight: U16)

  const SERVICE := "_kerbridge._tcp"

  function Lower(s: string): (r: string)
    ensures |r| == |s|
  {
    if s == [] then [] else [if 'A' <= s[0] <= 'Z' then s[0] - 'A' + 'a' else s[0]] + Lower(s[1..])
  }

  function TrimDots(s: string): string {
    if s != [] && s[|s| - 1] == '.' then TrimDots(s[..|s| - 1]) else s
  }

  function TrimStart(s: string): string {
    if s != [] && Space(s[0]) then TrimStart(s[1..]) else s
  }

  function TrimEnd(s: string): string {
    if s != [] && Space(s[|s| - 1]) then TrimEnd(s[..|s| - 1]) else s
  }

  /** Lower case changes the letters A to Z, each to the one 32 further on, and nothing else. */
  lemma {:induction false} LowerExact(s: string)
    ensures forall i :: 0 <= i < |s| ==>
              Lower(s)[i] as int == if 65 <= s[i] as int <= 90 then s[i] as int + 32 else s[i] as int
  {
    if s != [] {
      LowerExact(s[1..]);
    }
  }

  /** What is trimmed off is all dots, and none is left at the end. */
  lemma {:induction false} TrimDotsExact(s: string)
    ensures var r := TrimDots(s);
            && r <= s && (forall i :: |r| <= i < |s| ==> s[i] == '.')
            && (r != [] ==> r[|r| - 1] != '.')
  {
    if s != [] && s[|s| - 1] == '.' {
      TrimDotsExact(s[..|s| - 1]);
    }
  }

  /** What is trimmed off at the end is all white space, and none is left there. */
  lemma {:induction false} TrimEndExact(s: string)
    ensures var r := TrimEnd(s);
            && r <= s && (forall i :: |r| <= i < |s| ==> Space(s[i]))
            && (r != [] ==> !Space(r[|r| - 1]))
  {
    hide Space;
    if s != [] && Space(s[|s| - 1]) {
      TrimEndExact(s[..|s| - 1]);
    }
  }

  /** And the same at the start. */
  lemma {:induction false} TrimStartExact(s: string)
    ensures var r := TrimStart(s);
            && |r| <= |s| && r == s[|s| - |r|..] && (forall i :: 0 <= i < |s| - |r| ==> Space(s[i]))
            && (r != [] ==> !Space(r[0]))
  {
    hide Space;
    if s != [] && Space(s[0]) {
      var rest := s[1..];
      TrimStartExact(rest);
      var r := TrimStart(rest);
      assert s[|s| - |r|..] == rest[|rest| - |r|..];
      forall i | 0 <= i < |s| - |r| ensures Space(s[i]) {
        assert i > 0 ==> s[i] == rest[i - 1];
      }
    }
  }

  function Canonical(name: string): string {
    Lower(TrimDots(name))
  }

  function Labels(domain: string): (r: seq<string>)
    ensures |r| >= 1
  {
    Split(domain, '.')
  }

  ghost predicate EndsWith(all: seq<string>, tail: seq<string>) {
    |tail| <= |all| && all[|all| - |tail|..] == tail
  }

  // The target rule.

  predicate Within(host: string, domain: string) {
    var h, tail := Canonical(host), "." + Canonical(domain);
    h == Canonical(domain) || (|tail| <= |h| && h[|h| - |tail|..] == tail)
  }

  /** A host is within a domain exactly when its labels end with the domain's labels. */
  lemma WithinIffLabels(host: string, domain: string)
    ensures Within(host, domain) <==> EndsWith(Labels(Canonical(host)), Labels(Canonical(domain)))
  {
    hide Canonical;
    SuffixIffLabels(Canonical(host), Canonical(domain));
  }

  lemma SuffixIffLabels(h: string, d: string)
    ensures (h == d || (|d| + 1 <= |h| && h[|h| - |d| - 1..] == "." + d)) <==> EndsWith(Labels(h), Labels(d))
  {
    hide Split;
    if |d| + 1 <= |h| && h[|h| - |d| - 1..] == "." + d {
      var front := h[..|h| - |d| - 1];
      assert h == front + "." + d;
      SplitAtSeparator(front, d, '.');
      assert Labels(h)[|Labels(front)|..] == Labels(d);
    }
    if EndsWith(Labels(h), Labels(d)) {
      var front := Labels(h)[..|Labels(h)| - |Labels(d)|];
      assert Labels(h) == front + Labels(d);
      JoinSplit(h, '.');
      JoinSplit(d, '.');
      if front == [] {
        assert Labels(h) == Labels(d);
      } else {
        assert Clean(front, '.') by {
          assert forall i :: 0 <= i < |front| ==> front[i] == Labels(h)[i];
        }
        JoinAppend(front, Labels(d), '.');
        assert h == Join(front, '.') + "." + d;
      }
    }
  }

  // The choice among records.

  predicate Before(a: Record, b: Record) {
    a.priority < b.priority || (a.priority == b.priority && a.weight > b.weight)
  }

  /** The stable sort by priority, then by falling weight. */
  function Sorted(records: seq<Record>): seq<Record> {
    if records == [] then [] else Insert(records[0], Sorted(records[1..]))
  }

  function Insert(r: Record, sorted: seq<Record>): seq<Record> {
    if sorted == [] || !Before(sorted[0], r) then [r] + sorted else [sorted[0]] + Insert(r, sorted[1..])
  }

  function Pick(records: seq<Record>): Option<Record> {
    var sorted := Sorted(records);
    if sorted == [] then None else Some(sorted[0])
  }

  /** The lowest priority, then the highest weight, and the first of those that tie. */
  ghost predicate Best(records: seq<Record>, i: nat) {
    && i < |records|
    && (forall j :: 0 <= j < |records| ==> records[i].priority <= records[j].priority)
    && (forall j :: 0 <= j < |records| && records[j].priority == records[i].priority ==>
          records[j].weight < records[i].weight || (records[j].weight == records[i].weight && i <= j))
  }

  /** The same by the order of the sort: nothing comes before it, and it comes before all that precede it. */
  ghost predicate Front(records: seq<Record>, i: nat) {
    && i < |records|
    && (forall j :: 0 <= j < |records| ==> !Before(records[j], records[i]))
    && (forall j :: 0 <= j < i ==> Before(records[i], records[j]))
  }

  lemma FrontIsBest(records: seq<Record>, i: nat)
    ensures Front(records, i) <==> Best(records, i)
  {
  }

  lemma {:induction false} PickIsFront(records: seq<Record>)
    ensures Pick(records).None? <==> records == []
    ensures forall i: nat :: Front(records, i) ==> Pick(records) == Some(records[i])
    ensures records != [] ==> exists i: nat :: Front(records, i)
  {
    if records != [] {
      var rest := records[1..];
      PickIsFront(rest);
      assert records == [records[0]] + rest;
      if rest == [] {
        assert Front(records, 0);
      } else {
        var k: nat :| Front(rest, k);
        var best := if Before(rest[k], records[0]) then k + 1 else 0;
        assert forall j :: 1 <= j < |records| ==> records[j] == rest[j - 1];
        assert Front(records, best);
      }
      forall i: nat | Front(records, i) ensures Pick(records) == Some(records[i]) {
        if i > 0 {
          assert Before(records[i], records[0]);
          assert Front(rest, i - 1) by {
            assert forall j :: 0 <= j < |rest| ==> rest[j] == records[j + 1];
          }
        } else if rest != [] {
          var k: nat :| Front(rest, k);
          assert !Before(records[k + 1], records[0]);
        }
      }
    }
  }

  lemma PickIsBest(records: seq<Record>)
    ensures Pick(records).None? <==> records == []
    ensures forall i: nat :: Best(records, i) ==> Pick(records) == Some(records[i])
    ensures records != [] ==> exists i: nat :: Best(records, i)
  {
    hide Best, Front, Pick;
    PickIsFront(records);
    forall i: nat ensures Front(records, i) <==> Best(records, i) {
      FrontIsBest(records, i);
    }
  }

  // The search list.

  function Push(out: seq<string>, d: string): seq<string> {
    if d in out then out else out + [d]
  }

  function PushAll(out: seq<string>, ds: seq<string>): seq<string> {
    if ds == [] then out else Push(PushAll(out, ds[..|ds| - 1]), ds[|ds| - 1])
  }

  ghost predicate Distinct(ds: seq<string>) {
    forall i, j :: 0 <= i < j < |ds| ==> ds[i] != ds[j]
  }

  lemma {:induction false} PushAllSpec(out: seq<string>, ds: seq<string>)
    ensures var r := PushAll(out, ds);
            && out <= r
            && (Distinct(out) ==> Distinct(r))
            && (forall d :: d in r <==> d in out || d in ds)
            && (forall i :: |out| <= i < |r| ==> r[i] !in out && r[i] in ds)
    ensures Distinct(out) ==> InOrder(PushAll(out, ds)[|out|..], ds)
  {
    if ds != [] {
      var init, last := ds[..|ds| - 1], ds[|ds| - 1];
      PushAllSpec(out, init);
      var before, r := PushAll(out, init), PushAll(out, ds);
      assert ds == init + [last];
      assert forall d :: d in ds <==> d in init || d == last;
      var tail := before[|out|..];
      if last !in before {
        assert r[|out|..] == tail + [last];
        if Distinct(out) {
          InOrderSnoc(tail, init, last);
        }
      } else if Distinct(out) {
        InOrderGrows(tail, init, last);
      }
    }
  }

  ghost predicate First(ds: seq<string>, d: string, k: nat) {
    k < |ds| && ds[k] == d && forall m :: 0 <= m < k ==> ds[m] != d
  }

  /** The names stand in the order in which they first come up in `ds`. */
  ghost predicate InOrder(names: seq<string>, ds: seq<string>) {
    forall i, j, k: nat, l: nat :: 0 <= i < j < |names| && First(ds, names[i], k) && First(ds, names[j], l) ==> k < l
  }

  lemma InOrderGrows(names: seq<string>, init: seq<string>, last: string)
    requires InOrder(names, init) && forall i :: 0 <= i < |names| ==> names[i] in init
    ensures InOrder(names, init + [last])
  {
    forall i, k: nat | 0 <= i < |names| && First(init + [last], names[i], k) ensures First(init, names[i], k) {
      FirstStays(init, last, names[i], k);
    }
  }

  lemma FirstStays(init: seq<string>, last: string, d: string, k: nat)
    requires d in init && First(init + [last], d, k)
    ensures First(init, d, k)
  {
    var m :| 0 <= m < |init| && init[m] == d;
    assert (init + [last])[m] == d;
    assert forall m :: 0 <= m < k ==> init[m] == (init + [last])[m];
  }

  lemma InOrderSnoc(names: seq<string>, init: seq<string>, last: string)
    requires InOrder(names, init) && (forall i :: 0 <= i < |names| ==> names[i] in init) && last !in init
    ensures InOrder(names + [last], init + [last])
  {
    InOrderGrows(names, init, last);
    var all, ds := names + [last], init + [last];
    forall i, j, k: nat, l: nat | 0 <= i < j < |all| && First(ds, all[i], k) && First(ds, all[j], l) ensures k < l {
      if j == |names| {
        assert all[j] == last && all[i] == names[i];
        FirstStays(init, last, names[i], k);
        assert l >= |init|;
      } else {
        assert all[i] == names[i] && all[j] == names[j];
      }
    }
  }

  /** The candidates of one comma-separated value, normalized; single labels are dropped. */
  function Candidates(pieces: seq<string>): seq<string> {
    if pieces == [] then []
    else
      var c := Canonical(TrimEnd(TrimStart(pieces[|pieces| - 1])));
      Candidates(pieces[..|pieces| - 1]) + if '.' in c then [c] else []
  }

  function Own(values: seq<string>): seq<string> {
    if values == [] then []
    else PushAll(Own(values[..|values| - 1]), Candidates(Split(values[|values| - 1], ',')))
  }

  function Parents(domain: string): seq<string> {
    var labels := Labels(domain);
    if |labels| <= 2 then [] else seq(|labels| - 2, i requires 0 <= i < |labels| - 2 => Join(labels[i + 1..], '.'))
  }

  function AllParents(domains: seq<string>): seq<string> {
    if domains == [] then [] else AllParents(domains[..|domains| - 1]) + Parents(domains[|domains| - 1])
  }

  function SearchList(values: seq<string>): seq<string> {
    PushAll(Own(values), AllParents(Own(values)))
  }

  method Add(out: seq<string>, value: string) returns (r: seq<string>)
    ensures r == PushAll(out, Candidates(Split(value, ',')))
  {
    hide Canonical, TrimStart, TrimEnd, Split;
    r := out;
    var pieces := Split(value, ',');
    for i := 0 to |pieces|
      invariant r == PushAll(out, Candidates(pieces[..i]))
    {
      var candidate := Canonical(TrimEnd(TrimStart(pieces[i])));
      ghost var sofar := Candidates(pieces[..i]);
      assert pieces[..i + 1][..i] == pieces[..i];
      if '.' in candidate {
        assert (sofar + [candidate])[..|sofar|] == sofar;
      } else {
        assert Candidates(pieces[..i + 1]) == sofar;
      }
      if '.' in candidate && candidate !in r {
        r := r + [candidate];
      }
    }
    assert pieces[..|pieces|] == pieces;
  }

  lemma {:induction false} PushAllAppend(out: seq<string>, a: seq<string>, b: seq<string>)
    ensures PushAll(out, a + b) == PushAll(PushAll(out, a), b)
  {
    if b == [] {
      assert a + b == a;
    } else {
      PushAllAppend(out, a, b[..|b| - 1]);
      assert (a + b)[..|a + b| - 1] == a + b[..|b| - 1];
    }
  }

  method AddMissing(out: seq<string>, names: seq<string>) returns (r: seq<string>)
    ensures r == PushAll(out, names)
  {
    r := out;
    for i := 0 to |names|
      invariant r == PushAll(out, names[..i])
    {
      assert names[..i + 1][..i] == names[..i];
      if names[i] !in r {
        r := r + [names[i]];
      }
    }
    assert names[..|names|] == names;
  }

  method DnsDomains(values: seq<string>) returns (out: seq<string>)
    ensures out == SearchList(values)
  {
    hide Candidates, Split, PushAll, Parents;
    out := [];
    for i := 0 to |values|
      invariant out == Own(values[..i])
    {
      assert values[..i + 1][..i] == values[..i];
      out := Add(out, values[i]);
    }
    assert values[..|values|] == values;
    var own := out;
    PushAllNone(own);
    for i := 0 to |own|
      invariant out == PushAll(own, AllParents(own[..i]))
    {
      assert own[..i + 1][..i] == own[..i];
      PushAllAppend(own, AllParents(own[..i]), Parents(own[i]));
      out := AddMissing(out, Parents(own[i]));
    }
    assert own[..|own|] == own;
  }

  lemma PushAllNone(out: seq<string>)
    ensures PushAll(out, []) == out
  {
  }

  lemma ParentLabels(domain: string, i: nat)
    requires i < |Parents(domain)|
    ensures i + 2 < |Labels(domain)| && |Parents(domain)| == |Labels(domain)| - 2
    ensures Parents(domain)[i] == Join(Labels(domain)[i + 1..], '.')
    ensures Labels(Parents(domain)[i]) == Labels(domain)[i + 1..]
  {
    hide Split, Join;
    JoinSplit(domain, '.');
    SplitJoin(Labels(domain)[i + 1..], '.');
  }

  /** The parents are exactly the shorter label tails of at least two labels. */
  lemma ParentsSpec(domain: string, p: string)
    ensures p in Parents(domain) <==>
              2 <= |Labels(p)| < |Labels(domain)| && EndsWith(Labels(domain), Labels(p))
  {
    hide Labels, Join;
    if p in Parents(domain) {
      var i :| 0 <= i < |Parents(domain)| && p == Parents(domain)[i];
      ParentLabels(domain, i);
    }
    if 2 <= |Labels(p)| < |Labels(domain)| && EndsWith(Labels(domain), Labels(p)) {
      var i := |Labels(domain)| - |Labels(p)| - 1;
      ParentLabels(domain, i);
      LabelsInjective(p, Parents(domain)[i]);
    }
  }

  lemma LabelsInjective(a: string, b: string)
    requires Labels(a) == Labels(b)
    ensures a == b
  {
    SplitInjective(a, b, '.');
  }

  /** The most specific parent comes first. */
  lemma ParentsFall(domain: string, i: nat, j: nat)
    requires i < j < |Parents(domain)|
    ensures |Labels(Parents(domain)[i])| > |Labels(Parents(domain)[j])|
  {
    hide Labels, Parents;
    ParentLabels(domain, i);
    ParentLabels(domain, j);
  }

  lemma {:induction false} AllParentsSpec(domains: seq<string>, p: string)
    ensures p in AllParents(domains) <==> exists i :: 0 <= i < |domains| && p in Parents(domains[i])
  {
    if domains != [] {
      AllParentsSpec(domains[..|domains| - 1], p);
    }
  }

  /** A piece as a candidate: trimmed, and in lower case. */
  function Normal(piece: string): string {
    Lower(TrimDots(TrimEnd(TrimStart(piece))))
  }

  /** The candidates are the pieces in that form that have a dot in them. */
  lemma {:induction false} CandidatesExact(pieces: seq<string>, d: string)
    ensures d in Candidates(pieces) <==> '.' in d && exists i :: 0 <= i < |pieces| && d == Normal(pieces[i])
  {
    hide Lower, TrimDots, TrimEnd, TrimStart;
    if pieces != [] {
      var init, last := pieces[..|pieces| - 1], pieces[|pieces| - 1];
      CandidatesExact(init, d);
      assert Canonical(TrimEnd(TrimStart(last))) == Normal(last);
      if exists i :: 0 <= i < |pieces| && d == Normal(pieces[i]) {
        var i :| 0 <= i < |pieces| && d == Normal(pieces[i]);
        assert i < |init| ==> init[i] == pieces[i];
      }
      if exists i :: 0 <= i < |init| && d == Normal(init[i]) {
        var i :| 0 <= i < |init| && d == Normal(init[i]);
        assert pieces[i] == init[i];
      }
    }
  }

  lemma {:induction false} CandidatesDotted(pieces: seq<string>)
    ensures forall d :: d in Candidates(pieces) ==> '.' in d
  {
    if pieces != [] {
      CandidatesDotted(pieces[..|pieces| - 1]);
    }
  }

  lemma {:induction false} OwnSpec(values: seq<string>)
    ensures Distinct(Own(values))
    ensures forall d :: d in Own(values) ==> |Labels(d)| >= 2
    ensures forall d :: d in Own(values) <==>
                          exists i :: 0 <= i < |values| && d in Candidates(Split(values[i], ','))
  {
    hide Candidates, Labels, PushAll, Split;
    if values != [] {
      var init, more := values[..|values| - 1], Candidates(Split(values[|values| - 1], ','));
      OwnSpec(init);
      PushAllSpec(Own(init), more);
      CandidatesDotted(Split(values[|values| - 1], ','));
      forall d | '.' in d ensures |Labels(d)| >= 2 {
        DottedHasTwo(d);
      }
    }
  }

  lemma DottedHasTwo(d: string)
    requires '.' in d
    ensures |Labels(d)| >= 2
  {
    JoinSplit(d, '.');
  }

  lemma EndsWithTrans(a: seq<string>, b: seq<string>, c: seq<string>)
    requires EndsWith(a, b) && EndsWith(b, c)
    ensures EndsWith(a, c)
  {
    assert a[|a| - |c|..] == b[|b| - |c|..];
  }

  /**
   For every configuration: no zone is asked twice, none has a single label, every own domain comes
   before every added parent, the parents follow in order of first mention, and the list holds every
   parent of everything on it.
   */
  lemma SearchListSpec(values: seq<string>)
    ensures var own, all := Own(values), SearchList(values);
            && Distinct(all)
            && own <= all
            && InOrder(all[|own|..], AllParents(own))
            && (forall i :: |own| <= i < |all| ==> all[i] !in own && ParentOfSome(own, all[i]))
            && (forall d :: d in all ==> |Labels(d)| >= 2)
            && (forall d, p :: d in all && p in Parents(d) ==> p in all)
  {
    hide Parents, Labels, Own, PushAll, AllParents;
    var own, all := Own(values), SearchList(values);
    OwnSpec(values);
    PushAllSpec(own, AllParents(own));
    forall p ensures p in AllParents(own) <==> ParentOfSome(own, p) {
      AllParentsSpec(own, p);
    }
    forall d | d in all ensures |Labels(d)| >= 2 {
      if d !in own {
        var i :| 0 <= i < |own| && d in Parents(own[i]);
        ParentsSpec(own[i], d);
      }
    }
    forall d, p | d in all && p in Parents(d) ensures p in all {
      GrandparentListed(own, d, p);
    }
  }

  ghost predicate ParentOfSome(own: seq<string>, p: string) {
    exists i :: 0 <= i < |own| && p in Parents(own[i])
  }

  lemma GrandparentListed(own: seq<string>, d: string, p: string)
    requires (d in own || ParentOfSome(own, d)) && p in Parents(d)
    ensures ParentOfSome(own, p)
  {
    hide Parents, Labels;
    if d in own {
      var i :| 0 <= i < |own| && own[i] == d;
      assert p in Parents(own[i]);
    } else {
      var i :| 0 <= i < |own| && d in Parents(own[i]);
      ParentsSpec(own[i], d);
      ParentsSpec(d, p);
      EndsWithTrans(Labels(own[i]), Labels(d), Labels(p));
      ParentsSpec(own[i], p);
      assert p in Parents(own[i]);
    }
  }

  /** Lower case, and no dot at the end. */
  ghost predicate Plain(d: string) {
    (forall i :: 0 <= i < |d| ==> !('A' <= d[i] <= 'Z')) && (d != [] ==> d[|d| - 1] != '.')
  }

  lemma {:induction false} LowerSpec(s: string)
    ensures forall i :: 0 <= i < |s| ==> !('A' <= Lower(s)[i] <= 'Z') && (Lower(s)[i] == '.' <==> s[i] == '.')
    ensures (forall i :: 0 <= i < |s| ==> !('A' <= s[i] <= 'Z')) ==> Lower(s) == s
  {
    if s != [] {
      LowerSpec(s[1..]);
    }
  }

  lemma {:induction false} TrimDotsSpec(s: string)
    ensures TrimDots(s) != [] ==> TrimDots(s)[|TrimDots(s)| - 1] != '.'
  {
    if s != [] && s[|s| - 1] == '.' {
      TrimDotsSpec(s[..|s| - 1]);
    }
  }

  lemma CanonicalIsPlain(s: string)
    ensures Plain(Canonical(s))
    ensures Plain(s) ==> Canonical(s) == s
  {
    LowerSpec(TrimDots(s));
    TrimDotsSpec(s);
    LowerSpec(s);
  }

  lemma {:induction false} CandidatesPlain(pieces: seq<string>)
    ensures forall d :: d in Candidates(pieces) ==> Plain(d)
  {
    hide Canonical, Plain;
    if pieces != [] {
      CandidatesPlain(pieces[..|pieces| - 1]);
      CanonicalIsPlain(TrimEnd(TrimStart(pieces[|pieces| - 1])));
    }
  }

  lemma ParentIsPlain(d: string, p: string)
    requires Plain(d) && p in Parents(d)
    ensures Plain(p)
  {
    hide Parents, Labels;
    ParentsSpec(d, p);
    SuffixIffLabels(d, p);
    if p != d {
      var skip := |d| - |p|;
      assert d[skip - 1..] == "." + p;
      forall i | 0 <= i < |p| ensures p[i] == d[skip + i] {
        assert d[skip - 1..][i + 1] == ("." + p)[i + 1];
      }
    }
  }

  /** A name that asks about a top-level domain: no two of its labels hold anything. */
  ghost predicate BareTld(d: string) {
    forall i, j :: 0 <= i < j < |Labels(d)| ==> Labels(d)[i] == "" || Labels(d)[j] == ""
  }

  ghost predicate EmptySecondLevel(d: string) {
    |Labels(d)| >= 2 && Labels(d)[|Labels(d)| - 2] == ""
  }

  /** What does not end with a dot has something in its last label. */
  lemma LastLabelHolds(d: string)
    requires Plain(d) && |Labels(d)| >= 2
    ensures Labels(d)[|Labels(d)| - 1] != ""
  {
    hide Split;
    var labels := Labels(d);
    var front, last := labels[..|labels| - 1], labels[|labels| - 1];
    JoinSplit(d, '.');
    assert front + [last] == labels;
    assert Clean(front, '.') && Clean([last], '.') by {
      assert forall i :: 0 <= i < |front| ==> front[i] == labels[i];
    }
    JoinAppend(front, [last], '.');
    assert d == Join(front, '.') + "." + last;
  }

  lemma BareMeansEmptySecondLevel(o: string, d: string)
    requires Plain(o) && |Labels(d)| >= 2 && EndsWith(Labels(o), Labels(d)) && BareTld(d)
    ensures EmptySecondLevel(o)
  {
    hide Labels;
    LastLabelHolds(o);
    var k, n := |Labels(d)|, |Labels(o)|;
    assert Labels(d)[k - 2] == Labels(o)[n - k..][k - 2] && Labels(d)[k - 1] == Labels(o)[n - k..][k - 1];
  }

  /** The two-label tail of an own domain is on the list. */
  lemma TwoLabelTailListed(values: seq<string>, o: string)
    requires o in Own(values)
    ensures exists d :: d in SearchList(values) && |Labels(d)| == 2 && EndsWith(Labels(o), Labels(d))
  {
    hide Own, PushAll, AllParents, Labels, Parents;
    var n := |Labels(o)|;
    SearchListSpec(values);
    OwnSpec(values);
    assert o in SearchList(values);
    if n == 2 {
      assert EndsWith(Labels(o), Labels(o));
    } else {
      var d := TwoLabelTail(o);
      ParentsSpec(o, d);
    }
  }

  ghost function TwoLabelTail(o: string): (d: string)
    requires |Labels(o)| >= 2
    ensures Labels(d) == Labels(o)[|Labels(o)| - 2..]
  {
    JoinSplit(o, '.');
    SplitJoin(Labels(o)[|Labels(o)| - 2..], '.');
    Join(Labels(o)[|Labels(o)| - 2..], '.')
  }

  /**
   The promise never to ask a bare top-level domain: it is broken if and only if the last label but
   one of some own domain is empty.
   */
  lemma AsksBareTldIff(values: seq<string>)
    ensures (exists d :: d in SearchList(values) && BareTld(d)) <==>
            (exists o :: o in Own(values) && EmptySecondLevel(o))
  {
    hide Own, SearchList, Labels, Parents, Plain, BareTld, EmptySecondLevel;
    if exists d :: d in SearchList(values) && BareTld(d) {
      var d :| d in SearchList(values) && BareTld(d);
      var o := OwnOf(values, d);
      BareMeansEmptySecondLevel(o, d);
    }
    if exists o :: o in Own(values) && EmptySecondLevel(o) {
      var o :| o in Own(values) && EmptySecondLevel(o);
      TwoLabelTailListed(values, o);
      var d :| d in SearchList(values) && |Labels(d)| == 2 && EndsWith(Labels(o), Labels(d));
      EmptyTailIsBare(o, d);
    }
  }

  lemma EmptyTailIsBare(o: string, d: string)
    requires EmptySecondLevel(o) && |Labels(d)| == 2 && EndsWith(Labels(o), Labels(d))
    ensures BareTld(d)
  {
    hide Labels;
    assert Labels(d)[0] == Labels(o)[|Labels(o)| - 2..][0];
  }

  /** The own domain a listed name is, or is a tail of. */
  ghost function OwnOf(values: seq<string>, d: string): (o: string)
    requires d in SearchList(values)
    ensures o in Own(values) && Plain(o) && |Labels(d)| >= 2 && EndsWith(Labels(o), Labels(d))
  {
    OwnOfExists(values, d);
    var o :| o in Own(values) && EndsWith(Labels(o), Labels(d));
    o
  }

  lemma OwnOfExists(values: seq<string>, d: string)
    requires d in SearchList(values)
    ensures |Labels(d)| >= 2
    ensures exists o :: o in Own(values) && EndsWith(Labels(o), Labels(d))
    ensures forall o :: o in Own(values) ==> Plain(o)
  {
    hide SearchList, Own, Labels, Parents, Plain;
    var own, all := Own(values), SearchList(values);
    SearchListSpec(values);
    OwnIsPlain(values);
    var i :| 0 <= i < |all| && all[i] == d;
    if i < |own| {
      assert own[i] == d && EndsWith(Labels(d), Labels(d));
    } else {
      assert ParentOfSome(own, d);
      var k :| 0 <= k < |own| && d in Parents(own[k]);
      ParentsSpec(own[k], d);
      assert own[k] in own;
    }
  }

  lemma OwnIsPlain(values: seq<string>)
    ensures forall d :: d in Own(values) ==> Plain(d)
  {
    hide Candidates, Own, Plain, Split;
    OwnSpec(values);
    forall d | d in Own(values) ensures Plain(d) {
      var k :| 0 <= k < |values| && d in Candidates(Split(values[k], ','));
      CandidatesPlain(Split(values[k], ','));
    }
  }

  /** A domain of that kind: the walk up from it reaches a bare top-level name. */
  lemma EmptyLabelReachesTld()
    ensures ".site" in Parents("a..site")
  {
    SplitJoin(["a", "", "site"], '.');
    assert Join(["", "site"], '.') == ".site" by {
      assert ["", "site"][1..] == ["site"];
      assert "" + "." + "site" == ".site";
    }
    assert Join(["a", "", "site"], '.') == "a..site" by {
      assert ["a", "", "site"][1..] == ["", "site"];
      assert "a" + "." + ".site" == "a..site";
    }
    assert Labels("a..site")[1..] == ["", "site"];
    assert Parents("a..site")[0] == ".site";
  }

  /** Every zone on the list is already in the form names are compared in. */
  lemma ListIsCanonical(values: seq<string>, i: nat)
    requires i < |SearchList(values)|
    ensures Canonical(SearchList(values)[i]) == SearchList(values)[i]
  {
    hide Canonical, Candidates, Parents, Own, AllParents, PushAll, Plain, Labels, Split;
    var own, all := Own(values), SearchList(values);
    SearchListSpec(values);
    OwnIsPlain(values);
    if i < |own| {
      assert all[i] == own[i];
    } else {
      assert ParentOfSome(own, all[i]);
      var k :| 0 <= k < |own| && all[i] in Parents(own[k]);
      ParentIsPlain(own[k], all[i]);
    }
    CanonicalIsPlain(all[i]);
  }

  // The answer.

  /** The name to ask for in a zone. */
  function Query(domain: string): string {
    "_kerbridge._tcp." + domain
  }

  lemma QueryName(domain: string)
    ensures SERVICE + "." + domain == Query(domain)
  {
    assert SERVICE + "." == "_kerbridge._tcp.";
  }

  predicate Qualifies(domain: string, answer: string -> seq<Record>) {
    var srv := Pick(answer(Query(domain)));
    srv.Some? && Within(srv.value.target, domain)
  }

  function Url(srv: Record): string {
    "https://" + srv.target + if srv.port == 443 then "" else ":" + DecText(srv.port)
  }

  /** The address is secure, names the target, and names the port unless it is the usual one. */
  lemma UrlSpec(srv: Record)
    ensures srv.port == 443 ==> Url(srv) == "https://" + srv.target
    ensures srv.port != 443 ==> Url(srv) == "https://" + srv.target + ":" + DecText(srv.port)
  {
    assert "https://" + srv.target + "" == "https://" + srv.target;
    assert "https://" + srv.target + (":" + DecText(srv.port)) == "https://" + srv.target + ":" + DecText(srv.port);
  }

  /** The first domain whose best record qualifies decides; otherwise there is no answer. */
  method DiscoverBroker(values: seq<string>, answer: string -> seq<Record>) returns (url: Option<string>)
    ensures url.None? <==> forall d :: d in SearchList(values) ==> !Qualifies(d, answer)
    ensures url.Some? ==> exists i :: 0 <= i < |SearchList(values)| && Decides(SearchList(values), i, answer)
                                      && url.value == Url(Pick(answer(Query(SearchList(values)[i]))).value)
  {
    hide SearchList, Within, Pick, Url, Query;
    var domains := DnsDomains(values);
    for i := 0 to |domains|
      invariant forall j :: 0 <= j < i ==> !Qualifies(domains[j], answer)
    {
      var domain := domains[i];
      QueryName(domain);
      var srv := Pick(answer(SERVICE + "." + domain));
      if srv.None? || !Within(srv.value.target, domain) {
        continue;
      }
      assert domain in domains && Qualifies(domain, answer);
      return Some(Url(srv.value));
    }
    return None;
  }

  ghost predicate Decides(domains: seq<string>, i: nat, answer: string -> seq<Record>) {
    i < |domains| && Qualifies(domains[i], answer) && forall j :: 0 <= j < i ==> !Qualifies(domains[j], answer)
  }

  /**
   Whatever DNS answers, a chosen target shares at least its last two labels with one of this
   machine's own domains, and lies inside the zone that answered.
   */
  lemma TargetStaysHome(values: seq<string>, i: nat, answer: string -> seq<Record>)
    requires Decides(SearchList(values), i, answer)
    ensures var domain := SearchList(values)[i];
            var target := Pick(answer(Query(domain))).value.target;
            && EndsWith(Labels(Canonical(target)), Labels(domain))
            && |Labels(domain)| >= 2
            && exists o :: o in Own(values) && EndsWith(Labels(o), Labels(domain))
  {
    hide Pick, Canonical, Within, SearchList, Own, Labels, Parents, Query;
    var domain := SearchList(values)[i];
    WithinIffLabels(Pick(answer(Query(domain))).value.target, domain);
    assert domain in SearchList(values);
    ListIsCanonical(values, i);
    var o := OwnOf(values, domain);
  }
}
