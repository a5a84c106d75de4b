/** The verdict of a reload: what Caddy answered, what it is then seen to serve, and
    what is recorded about it (internal/caddy/admin.go). The network is a script. */
module Caddy {
  import opened Text

  datatype Json =
    | Null
    | Bool(b: bool)
    | Number(n: real)
    | Str(s: string)
    | Arr(items: seq<Json>)
    | Obj(members: map<string, Json>)

  /** `h` is a string of some "host" array, at any depth. */
  ghost predicate HostOccurs(v: Json, h: string) {
    match v
    case Arr(items) => exists i :: 0 <= i < |items| && HostOccurs(items[i], h)
    case Obj(members) => HostListed(members, h) || exists k :: k in members && HostOccurs(members[k], h)
    case _ => false
  }

  ghost predicate HostListed(members: map<string, Json>, h: string) {
    "host" in members && members["host"].Arr? && Str(h) in members["host"].items
  }

  /** The strings of a "host" array. */
  method AppendStrings(items: seq<Json>, hosts: seq<string>) returns (hosts': seq<string>)
    ensures forall h :: h in hosts' <==> h in hosts || Str(h) in items
  {
    hosts' := hosts;
    for i := 0 to |items|
      invariant forall h :: h in hosts' <==> h in hosts || Str(h) in items[..i]
    {
      if items[i].Str? {
        hosts' := hosts' + [items[i].s];
      }
      assert items[..i + 1] == items[..i] + [items[i]];
    }
    assert items[..|items|] == items;
  }

  /** The recursive walk; map members come in no particular order. */
  method CollectHosts(v: Json, hosts: seq<string>) returns (hosts': seq<string>)
    ensures forall h :: h in hosts' <==> h in hosts || HostOccurs(v, h)
    decreases v
  {
    hosts' := hosts;
    match v {
      case Obj(members) =>
        if "host" in members && members["host"].Arr? {
          hosts' := AppendStrings(members["host"].items, hosts');
        }
        var todo := members.Keys;
        while todo != {}
          invariant todo <= members.Keys
          invariant forall h :: h in hosts' <==>
                                  h in hosts || HostListed(members, h) ||
                                  exists k :: k in members && k !in todo && HostOccurs(members[k], h)
        {
          var k :| k in todo;
          ghost var before := hosts';
          hosts' := CollectHosts(members[k], hosts');
          todo := todo - {k};
          forall h
            ensures h in hosts' <==>
                    h in hosts || HostListed(members, h) ||
                    exists k :: k in members && k !in todo && HostOccurs(members[k], h)
          {
            assert h in hosts' <==> h in before || HostOccurs(members[k], h);
          }
        }
      case Arr(items) =>
        for i := 0 to |items|
          invariant forall h :: h in hosts' <==> h in hosts || exists j :: 0 <= j < i && HostOccurs(items[j], h)
        {
          ghost var before := hosts';
          hosts' := CollectHosts(items[i], hosts');
          forall h
            ensures h in hosts' <==> h in hosts || exists j :: 0 <= j < i + 1 && HostOccurs(items[j], h)
          {
            assert h in hosts' <==> h in before || HostOccurs(items[i], h);
          }
        }
      case _ =>
    }
  }

  // --------------------------------------------------------------- expected hosts

  predicate LooksLikeHost(h: string) {
    '.' in h || ':' in h || h == "localhost"
  }

  predicate IsCandidate(h: string) {
    h != "" && !HasPrefix(h, ":") && LooksLikeHost(h)
  }

  /** The comma-separated addresses of the captured site lines, trimmed. */
  function Addresses(captures: seq<string>): seq<string> {
    if captures == [] then []
    else Addresses(captures[..|captures| - 1]) + TrimAll(Split(captures[|captures| - 1], ','))
  }

  /** One of the comma-separated addresses of the captured site lines, without the space around it. */
  ghost predicate Listed(captures: seq<string>, h: string) {
    exists c, part :: c in captures && part in Split(c, ',') && h == TrimSpace(part)
  }

  /** The addresses to look for: those listed that are neither empty nor a port alone, and
      are a name with a dot, have a colon, or are "localhost". */
  ghost predicate Expected(captures: seq<string>, h: string) {
    && Listed(captures, h)
    && |h| > 0 && h[0] != ':'
    && (h == "localhost" || exists i :: 0 <= i < |h| && (h[i] == '.' || h[i] == ':'))
  }

  lemma {:induction false} AddressesAreListed(captures: seq<string>, h: string)
    ensures h in Addresses(captures) <==> Listed(captures, h)
  {
    if captures != [] {
      var front, last := captures[..|captures| - 1], captures[|captures| - 1];
      assert captures == front + [last];
      AddressesAreListed(front, h);
      var parts := Split(last, ',');
      assert h in TrimAll(parts) <==> exists part :: part in parts && h == TrimSpace(part) by {
        if h in TrimAll(parts) {
          var i :| 0 <= i < |parts| && TrimAll(parts)[i] == h;
          assert parts[i] in parts;
        }
        if part :| part in parts && h == TrimSpace(part) {
          var i :| 0 <= i < |parts| && parts[i] == part;
          assert TrimAll(parts)[i] == h;
        }
      }
    }
  }

  /** Exactly which addresses are looked for. */
  lemma ExpectedIff(captures: seq<string>, h: string)
    ensures h in Distinct(Addresses(captures)) <==> Expected(captures, h)
  {
    DistinctIsExact(Addresses(captures));
    AddressesAreListed(captures, h);
    assert HasPrefix(h, ":") <==> |h| > 0 && h[0] == ':';
  }

  function TrimAll(parts: seq<string>): (trimmed: seq<string>)
    ensures |trimmed| == |parts|
    ensures forall i :: 0 <= i < |parts| ==> trimmed[i] == TrimSpace(parts[i])
  {
    if parts == [] then [] else [TrimSpace(parts[0])] + TrimAll(parts[1..])
  }

  /** The candidates among the addresses, first occurrences only. */
  function Distinct(addresses: seq<string>): seq<string> {
    if addresses == [] then []
    else
      var front, h := Distinct(addresses[..|addresses| - 1]), addresses[|addresses| - 1];
      if IsCandidate(h) && h !in front then front + [h] else front
  }

  lemma DistinctSnoc(addresses: seq<string>, h: string)
    ensures Distinct(addresses + [h]) ==
            if IsCandidate(h) && h !in Distinct(addresses) then Distinct(addresses) + [h] else Distinct(addresses)
  {
    assert (addresses + [h])[..|addresses|] == addresses;
  }

  lemma TrimAllStep(before: seq<string>, trimmed: seq<string>, j: nat)
    requires j < |trimmed|
    ensures before + trimmed[..j] + [trimmed[j]] == before + trimmed[..j + 1]
  {
  }

  /** The inner loop: one capture's addresses, after those already seen. */
  method AddAddresses(ghost before: seq<string>, parts: seq<string>, hosts: seq<string>) returns (hosts': seq<string>)
    requires hosts == Distinct(before)
    ensures hosts' == Distinct(before + TrimAll(parts))
  {
    hosts' := hosts;
    ghost var trimmed := TrimAll(parts);
    assert before + trimmed[..0] == before;
    for j := 0 to |parts|
      invariant hosts' == Distinct(before + trimmed[..j])
    {
      var h := TrimSpace(parts[j]);
      hosts' := AddHost(before + trimmed[..j], h, hosts');
      TrimAllStep(before, trimmed, j);
    }
    assert trimmed[..|parts|] == trimmed;
  }

  /** One address: skipped when empty, port-only, already seen or not a host. */
  method AddHost(ghost before: seq<string>, h: string, hosts: seq<string>) returns (hosts': seq<string>)
    requires hosts == Distinct(before)
    ensures hosts' == Distinct(before + [h])
  {
    DistinctSnoc(before, h);
    if h == "" || HasPrefix(h, ":") || h in hosts || !LooksLikeHost(h) {
      hosts' := hosts;
    } else {
      hosts' := hosts + [h];
    }
  }

  method ExpectedHosts(captures: seq<string>) returns (hosts: seq<string>)
    ensures hosts == Distinct(Addresses(captures))
    ensures forall h :: h in hosts <==> Expected(captures, h)
  {
    hosts := [];
    for i := 0 to |captures|
      invariant hosts == Distinct(Addresses(captures[..i]))
    {
      assert captures[..i + 1][..i] == captures[..i];
      hosts := AddAddresses(Addresses(captures[..i]), Split(captures[i], ','), hosts);
    }
    assert captures[..|captures|] == captures;
    forall h
      ensures h in hosts <==> Expected(captures, h)
    {
      ExpectedIff(captures, h);
    }
  }

  ghost predicate NoDuplicates(hosts: seq<string>) {
    forall i, j :: 0 <= i < j < |hosts| ==> hosts[i] != hosts[j]
  }

  /** Every candidate address once, in the order of first occurrence, and nothing else. */
  lemma {:induction false} DistinctIsExact(addresses: seq<string>)
    ensures NoDuplicates(Distinct(addresses))
    ensures forall h :: h in Distinct(addresses) <==> h in addresses && IsCandidate(h)
    ensures InOrderOf(Distinct(addresses), addresses)
  {
    if addresses != [] {
      var front, h := addresses[..|addresses| - 1], addresses[|addresses| - 1];
      DistinctIsExact(front);
      assert addresses == front + [h];
      InOrderSnoc(Distinct(front), front, h);
    }
  }

  /** The expected hosts that the live configuration lacks, in order. */
  ghost function Absent(hosts: seq<string>, live: Json): seq<string> {
    if hosts == [] then []
    else
      var front, h := hosts[..|hosts| - 1], hosts[|hosts| - 1];
      if HostOccurs(live, h) then Absent(front, live) else Absent(front, live) + [h]
  }

  lemma {:induction false} AbsentIsExact(hosts: seq<string>, live: Json)
    requires NoDuplicates(hosts)
    ensures NoDuplicates(Absent(hosts, live))
    ensures forall h :: h in Absent(hosts, live) <==> h in hosts && !HostOccurs(live, h)
  {
    if hosts != [] {
      var front, h := hosts[..|hosts| - 1], hosts[|hosts| - 1];
      AbsentIsExact(front, live);
      assert hosts == front + [h];
    }
  }

  lemma LastIsLatest(front: seq<string>, h: string, addresses: seq<string>)
    requires InOrderOf(front + [h], addresses)
    ensures InOrderOf(front, addresses)
    ensures h in addresses && forall x :: x in front ==> FirstAt(addresses, x) < FirstAt(addresses, h)
  {
    var hosts := front + [h];
    assert forall i :: 0 <= i < |front| ==> hosts[i] == front[i];
    assert forall x :: x in front ==> x in hosts;
    assert hosts[|front|] == h;
  }

  lemma {:induction false} AbsentInOrder(hosts: seq<string>, live: Json, addresses: seq<string>)
    requires InOrderOf(hosts, addresses)
    ensures InOrderOf(Absent(hosts, live), addresses)
    ensures forall h :: h in Absent(hosts, live) ==> h in hosts
  {
    if hosts != [] {
      var front, h := hosts[..|hosts| - 1], hosts[|hosts| - 1];
      assert hosts == front + [h];
      AbsentInOrder(front, live, addresses);
      LastIsLatest(front, h, addresses);
    }
  }

  // ------------------------------------------------------------------------- reload

  /** The reply to POST /load: none (Caddy may have adopted the configuration all the
      same) or a status. A status other than 200 means the load was rejected. */
  datatype LoadReply = NoReply(adopted: bool) | Status(code: int)

  datatype AdminScript = AdminScript(urlIsValid: bool, captures: Option<seq<string>>, requestFails: bool,
                                     load: LoadReply, live: Option<Json>)

  datatype ReadbackState = ReadbackState(ok: bool, servers: nat, missing: seq<string>)

  function Servers(live: Json): nat {
    if live.Obj? then |live.members| else 0
  }

  predicate LoadSent(s: AdminScript) {
    s.urlIsValid && s.captures.Some? && !s.requestFails
  }

  /** Caddy has switched to the configuration on disk. */
  predicate Adopts(s: AdminScript) {
    LoadSent(s) && (s.load == NoReply(true) || s.load == Status(200))
  }

  ghost function ReadbackOf(s: AdminScript): ReadbackState {
    if !LoadSent(s) || s.load != Status(200) || s.live.None? then ReadbackState(false, 0, [])
    else
      var missing := Absent(Distinct(Addresses(s.captures.value)), s.live.value);
      ReadbackState(missing == [], Servers(s.live.value), missing)
  }

  /** The reload succeeds exactly when the load answered 200, the live configuration
      could be read, and every expected host occurs in it. */
  lemma ReloadSucceedsIff(s: AdminScript)
    ensures ReadbackOf(s).ok <==>
            && LoadSent(s) && s.load == Status(200) && s.live.Some?
            && forall h :: Expected(s.captures.value, h) ==> HostOccurs(s.live.value, h)
    ensures ReadbackOf(s).ok ==> Adopts(s)
  {
    if s.captures.Some? {
      forall h
        ensures h in Distinct(Addresses(s.captures.value)) <==> Expected(s.captures.value, h)
      {
        ExpectedIff(s.captures.value, h);
      }
    }
    if LoadSent(s) && s.live.Some? {
      var hosts := Distinct(Addresses(s.captures.value));
      DistinctIsExact(Addresses(s.captures.value));
      AbsentIsExact(hosts, s.live.value);
      var missing := Absent(hosts, s.live.value);
      if missing != [] {
        assert missing[0] in missing;
      }
    }
  }

  /** A mismatch reports the absent hosts, all of them, each once, in the order of the Caddyfile. */
  lemma MismatchIsExact(s: AdminScript)
    requires LoadSent(s) && s.load == Status(200) && s.live.Some?
    ensures NoDuplicates(ReadbackOf(s).missing)
    ensures forall h :: h in ReadbackOf(s).missing <==>
                          Expected(s.captures.value, h) && !HostOccurs(s.live.value, h)
    ensures InOrderOf(ReadbackOf(s).missing, Addresses(s.captures.value))
    ensures !ReadbackOf(s).ok <==> ReadbackOf(s).missing != []
  {
    forall h
      ensures h in Distinct(Addresses(s.captures.value)) <==> Expected(s.captures.value, h)
    {
      ExpectedIff(s.captures.value, h);
    }
    DistinctIsExact(Addresses(s.captures.value));
    AbsentIsExact(Distinct(Addresses(s.captures.value)), s.live.value);
    AbsentInOrder(Distinct(Addresses(s.captures.value)), s.live.value, Addresses(s.captures.value));
  }

  /** A site line of one address. */
  lemma OneAddress(h: string)
    requires Without(h, ',') && Trimmed(h)
    ensures forall x :: Listed([h], x) <==> x == h
  {
    SplitOnly(h, ',');
    TrimIsIdentity(h);
  }

  lemma MissingOne(s: AdminScript, h: string)
    requires LoadSent(s) && s.load == Status(200) && s.live == Some(Null) && s.captures == Some([h])
    requires Without(h, ',') && Trimmed(h)
    ensures ReadbackOf(s) == if Expected([h], h) then ReadbackState(false, 0, [h]) else ReadbackState(true, 0, [])
  {
    OneAddress(h);
    MismatchIsExact(s);
    var missing := ReadbackOf(s).missing;
    assert forall x :: x in missing <==> Expected([h], x);
    assert forall x :: x in missing ==> x == h;
    if missing != [] {
      assert forall i :: 0 <= i < |missing| ==> missing[i] in missing;
      assert missing[0] == h;
      OnceAlone(missing, h);
    } else {
      assert h !in missing;
    }
  }

  lemma OnceAlone(xs: seq<string>, x: string)
    requires xs != [] && NoDuplicates(xs) && forall i :: 0 <= i < |xs| ==> xs[i] == x
    ensures xs == [x]
  {
    var last := |xs| - 1;
    assert xs[0] == x && xs[last] == x;
    assert last == 0;
  }

  /** A site "localhost" that Caddy does not serve is reported. */
  lemma LocalhostIsExpected(s: AdminScript)
    requires LoadSent(s) && s.load == Status(200) && s.live == Some(Null) && s.captures == Some(["localhost"])
    ensures ReadbackOf(s) == ReadbackState(false, 0, ["localhost"])
  {
    OneAddress("localhost");
    MissingOne(s, "localhost");
  }

  lemma PlainWord(h: string, captures: seq<string>)
    requires h != "localhost" && Without(h, '.') && Without(h, ':')
    ensures !Expected(captures, h)
  {
  }

  /** A directive word that the pattern captures is not looked for. */
  lemma DirectiveIsNotExpected(s: AdminScript)
    requires LoadSent(s) && s.load == Status(200) && s.live == Some(Null) && s.captures == Some(["log"])
    ensures ReadbackOf(s) == ReadbackState(true, 0, [])
  {
    PlainWord("log", ["log"]);
    MissingOne(s, "log");
  }

  /** The loop over the expected hosts; `live` are the hosts of `config`. */
  method FindMissing(expected: seq<string>, live: seq<string>, ghost config: Json) returns (missing: seq<string>)
    requires forall h :: h in live <==> HostOccurs(config, h)
    ensures missing == Absent(expected, config)
  {
    missing := [];
    for i := 0 to |expected|
      invariant missing == Absent(expected[..i], config)
    {
      assert expected[..i + 1][..i] == expected[..i];
      if expected[i] !in live {
        missing := missing + [expected[i]];
      }
    }
    assert expected[..|expected|] == expected;
  }

  class Admin {
    var lastReadback: ReadbackState

    /** Load, read back, compare; the state is recorded on every path. */
    method Reload(s: AdminScript) returns (ok: bool)
      modifies this
      ensures lastReadback == ReadbackOf(s) && ok == lastReadback.ok
    {
      if !s.urlIsValid || s.captures.None? || s.requestFails || s.load != Status(200) || s.live.None? {
        lastReadback := ReadbackState(false, 0, []);
        return false;
      }
      var live := CollectHosts(s.live.value, []);
      var expected := ExpectedHosts(s.captures.value);
      var missing := FindMissing(expected, live, s.live.value);
      lastReadback := ReadbackState(|missing| == 0, Servers(s.live.value), missing);
      return |missing| == 0;
    }
  }
}
