/**
  The inventory reconciler of scanner.py (`scan_ip`): find the record of an
  address, then decide on one update, one create, or no write. The inventory
  store is a sequence of IP-address records in the order the store lists them;
  a write is applied to it by `Apply`.
*/
module Inventory {
  import opened Wrappers
  import opened Text
  import opened Probe

  const Reachability: string := "reachability"
  const LastScan: string := "last_scan"
  const LastOnline: string := "last_online"
  const MacAddress: string := "mac_address"
  const Online: string := "Online"
  const Offline: string := "Offline"

  /** One IP-address record: its address with mask, its custom fields and its DNS name. */
  datatype Record = Record(address: string, customFields: map<string, string>, dnsName: string)

  /** The store's IP-address records, in the order the store lists them. */
  type Store = seq<Record>

  /** The fields of a write: custom fields, and the DNS name where one is sent. */
  datatype Fields = Fields(customFields: map<string, string>, dnsName: Option<string>)

  /** The one write `scan_ip` issues for an address, if any. */
  datatype Write =
    | Update(at: nat, changes: Fields)        // `obj.update(updates)` on the record at that position
    | Create(address: string, fields: Fields) // `ip_addresses.create(payload)`
    | NoWrite
    | LookupFailed                            // the lookup raised; the error is logged and nothing is written

  /** Where the lookup found the address. */
  datatype Lookup = Found(at: nat) | Absent | Ambiguous

  /** The key `scan_ip` looks up and creates, whatever the address family or prefix length. */
  function HostKey(ip: string): string {
    ip + "/32"
  }

  /** The address part of a stored `address/mask`. */
  function HostOf(address: string): string {
    BeforeFirst(address, "/")
  }

  /** The store's `address=` filter: a query with a mask matches that address, a bare one matches the host. */
  predicate AddressMatches(address: string, query: string) {
    if Contains(query, "/") then address == query else HostOf(address) == query
  }

  /** The positions below `n` of the records `address=query` selects, in listing order. */
  function FilterBelow(store: Store, query: string, n: nat): (r: seq<nat>)
    requires n <= |store|
    ensures forall k :: 0 <= k < |r| ==> r[k] < n && AddressMatches(store[r[k]].address, query)
    ensures forall i :: 0 <= i < n && AddressMatches(store[i].address, query) ==> i in r
    ensures forall k, l :: 0 <= k < l < |r| ==> r[k] < r[l]
    decreases n
  {
    if n == 0 then []
    else
      var init := FilterBelow(store, query, n - 1);
      var r := if AddressMatches(store[n - 1].address, query) then init + [n - 1] else init;
      FilterStep(store, query, n, init, r);
      r
  }

  /** One more record considered: the selection grows by its position exactly when it matches. */
  lemma FilterStep(store: Store, query: string, n: nat, init: seq<nat>, r: seq<nat>)
    requires 0 < n <= |store|
    requires forall k :: 0 <= k < |init| ==> init[k] < n - 1 && AddressMatches(store[init[k]].address, query)
    requires forall i :: 0 <= i < n - 1 && AddressMatches(store[i].address, query) ==> i in init
    requires forall k, l :: 0 <= k < l < |init| ==> init[k] < init[l]
    requires r == if AddressMatches(store[n - 1].address, query) then init + [n - 1] else init
    ensures forall k :: 0 <= k < |r| ==> r[k] < n && AddressMatches(store[r[k]].address, query)
    ensures forall i :: 0 <= i < n && AddressMatches(store[i].address, query) ==> i in r
    ensures forall k, l :: 0 <= k < l < |r| ==> r[k] < r[l]
  {
    assert forall k :: 0 <= k < |init| ==> r[k] == init[k];
  }

  /** The positions of the records `address=query` selects, in listing order. */
  function Filter(store: Store, query: string): (r: seq<nat>)
    ensures forall k :: 0 <= k < |r| ==> r[k] < |store| && AddressMatches(store[r[k]].address, query)
    ensures forall i :: 0 <= i < |store| && AddressMatches(store[i].address, query) ==> i in r
    ensures forall k, l :: 0 <= k < l < |r| ==> r[k] < r[l]
  {
    FilterBelow(store, query, |store|)
  }

  /**
    `scan_ip`'s lookup: `get(address=ip/32)`, which raises when several records
    match; failing a match, the first record of `filter(address=ip)`.
  */
  function Locate(store: Store, ip: string): (r: Lookup)
    ensures r.Found? ==> r.at < |store|
    ensures r == Ambiguous <==> |Filter(store, HostKey(ip))| > 1
    ensures r.Found? ==>
      AddressMatches(store[r.at].address, HostKey(ip)) || AddressMatches(store[r.at].address, ip)
    ensures r == Absent ==> Filter(store, HostKey(ip)) == [] && Filter(store, ip) == []
  {
    var exact := Filter(store, HostKey(ip));
    if |exact| > 1 then Ambiguous
    else if |exact| == 1 then Found(exact[0])
    else
      var loose := Filter(store, ip);
      if loose == [] then Absent else Found(loose[0])
  }

  lemma HostKeyHasMask(ip: string)
    ensures Contains(HostKey(ip), "/")
  {
    assert OccursAt(HostKey(ip), "/", |ip|);
  }

  /** Several records under `ip/32` make the lookup fail. */
  lemma ExactMatchesAmbiguous(store: Store, ip: string)
    requires |Filter(store, HostKey(ip))| > 1
    ensures exists i, j :: 0 <= i < j < |store| && store[i].address == HostKey(ip) && store[j].address == HostKey(ip)
  {
    HostKeyHasMask(ip);
    var exact := Filter(store, HostKey(ip));
    assert exact[0] < exact[1];
  }

  /** One record under `ip/32` is the only one. */
  lemma ExactMatchUnique(store: Store, ip: string)
    requires |Filter(store, HostKey(ip))| == 1
    ensures var at := Filter(store, HostKey(ip))[0];
      store[at].address == HostKey(ip) && forall i :: 0 <= i < |store| && i != at ==> store[i].address != HostKey(ip)
  {
    HostKeyHasMask(ip);
  }

  /** No record under `ip/32`: no record has that address. */
  lemma NoExactMatch(store: Store, ip: string)
    requires Filter(store, HostKey(ip)) == []
    ensures forall i :: 0 <= i < |store| ==> store[i].address != HostKey(ip)
  {
    HostKeyHasMask(ip);
  }

  /** The first position the host filter selects is the first record whose host is `ip`. */
  lemma FirstHostMatch(store: Store, ip: string)
    requires !Contains(ip, "/")
    ensures var loose := Filter(store, ip);
      (loose == [] ==> forall i :: 0 <= i < |store| ==> HostOf(store[i].address) != ip) &&
      (loose != [] ==> HostOf(store[loose[0]].address) == ip && forall i :: 0 <= i < loose[0] ==> HostOf(store[i].address) != ip)
  {
  }

  /**
    The record is looked up by its exact `ip/32` key first, and only where no
    record has that key by the first record whose host part is `ip`.
  */
  lemma LookupOrder(store: Store, ip: string)
    requires !Contains(ip, "/")
    ensures match Locate(store, ip)
      case Ambiguous =>
        exists i, j :: 0 <= i < j < |store| && store[i].address == HostKey(ip) && store[j].address == HostKey(ip)
      case Found(at) =>
        (store[at].address == HostKey(ip) &&
         forall i :: 0 <= i < |store| && i != at ==> store[i].address != HostKey(ip)) ||
        ((forall i :: 0 <= i < |store| ==> store[i].address != HostKey(ip)) &&
         HostOf(store[at].address) == ip &&
         forall i :: 0 <= i < at ==> HostOf(store[i].address) != ip)
      case Absent =>
        forall i :: 0 <= i < |store| ==> store[i].address != HostKey(ip) && HostOf(store[i].address) != ip
  {
    var exact := Filter(store, HostKey(ip));
    if |exact| > 1 {
      ExactMatchesAmbiguous(store, ip);
    } else if |exact| == 1 {
      ExactMatchUnique(store, ip);
    } else {
      NoExactMatch(store, ip);
      FirstHostMatch(store, ip);
    }
  }

  function Status(pinged: bool): string {
    if pinged then Online else Offline
  }

  /** `cf.get(key)`. */
  function Stored(cf: map<string, string>, key: string): Option<string> {
    if key in cf then Some(cf[key]) else None
  }

  /** Python truthiness of an optional string. */
  predicate Present(s: Option<string>) {
    s.Some? && s.value != ""
  }

  /** `mac or ""`. */
  function MacText(mac: Option<string>): string {
    if mac.Some? then mac.value else ""
  }

  /** The custom fields an update of `rec` carries. */
  function WrittenKeys(rec: Record, facts: Facts): set<string> {
    {LastScan}
    + (if Stored(rec.customFields, Reachability) != Some(Status(facts.pinged)) then {Reachability} else {})
    + (if facts.pinged then {LastOnline} else {})
    + (if Present(facts.mac) && Stored(rec.customFields, MacAddress) != facts.mac then {MacAddress} else {})
  }

  /** The value written to a custom field. */
  function FieldValue(key: string, facts: Facts, now: string): string {
    if key == Reachability then Status(facts.pinged)
    else if key == MacAddress then MacText(facts.mac)
    else now
  }

  /** What `scan_ip` sends to an existing record. */
  function Changes(rec: Record, facts: Facts, now: string): (r: Fields)
    ensures LastScan in r.customFields && r.customFields[LastScan] == now
    ensures forall key :: key in r.customFields ==> key in {Reachability, LastScan, LastOnline, MacAddress}
    ensures r.dnsName.Some? ==> Present(r.dnsName) && r.dnsName != Some(rec.dnsName)
  {
    Fields(
      map key | key in WrittenKeys(rec, facts) :: FieldValue(key, facts, now),
      if Present(facts.dns) && rec.dnsName != facts.dns.value then facts.dns else None)
  }

  /** What `scan_ip` creates for a reachable address with no record. */
  function NewRecord(facts: Facts, now: string): (r: Fields)
    ensures r.customFields.Keys == {Reachability, LastScan, LastOnline, MacAddress}
    ensures r.customFields[Reachability] == Online
    ensures r.customFields[LastScan] == now && r.customFields[LastOnline] == now
    ensures r.dnsName.Some? <==> Present(facts.dns)
  {
    Fields(
      map[Reachability := Online, LastScan := now, LastOnline := now, MacAddress := MacText(facts.mac)],
      if Present(facts.dns) then facts.dns else None)
  }

  /** The write `scan_ip` issues for `ip` given what the prober found. */
  function Reconcile(store: Store, ip: string, facts: Facts, now: string): (w: Write)
    ensures w == LookupFailed <==> Locate(store, ip) == Ambiguous
    ensures w.Update? <==> Locate(store, ip).Found?
    ensures w.Update? ==> w.at == Locate(store, ip).at && w.changes == Changes(store[w.at], facts, now)
    ensures w.Create? <==> Locate(store, ip) == Absent && facts.pinged
    ensures w.Create? ==> w.address == HostKey(ip)
    ensures w == NoWrite <==> Locate(store, ip) == Absent && !facts.pinged
  {
    match Locate(store, ip)
    case Ambiguous => LookupFailed
    case Found(i) => Update(i, Changes(store[i], facts, now))
    case Absent => if facts.pinged then Create(HostKey(ip), NewRecord(facts, now)) else NoWrite
  }

  /** A record after an update: the changes are merged into its custom fields. */
  function Merge(rec: Record, changes: Fields): Record {
    Record(rec.address, rec.customFields + changes.customFields,
           if changes.dnsName.Some? then changes.dnsName.value else rec.dnsName)
  }

  /** The store after a write: an update merges into the record's custom fields, a create appends. */
  function Apply(store: Store, w: Write): Store {
    match w
    case Update(i, changes) => if i < |store| then store[i := Merge(store[i], changes)] else store
    case Create(address, fields) =>
      store + [Record(address, fields.customFields, if fields.dnsName.Some? then fields.dnsName.value else "")]
    case _ => store
  }

  /** An existing record always gets exactly one update, and it always stamps `last_scan`. */
  lemma ExistingRecordAlwaysUpdated(store: Store, ip: string, facts: Facts, now: string)
    requires Locate(store, ip).Found?
    ensures var w := Reconcile(store, ip, facts, now);
      w.Update? && w.at == Locate(store, ip).at &&
      LastScan in w.changes.customFields && w.changes.customFields[LastScan] == now
  {
  }

  /**
    An update carries `reachability` only when the stored value differs,
    `last_online` only for a host that answered, and the MAC address and DNS
    name only when the lookup found a non-empty value that differs from the
    stored one; it carries no other custom field.
  */
  lemma UpdateCarriesOnlyChanges(rec: Record, facts: Facts, now: string)
    ensures var c := Changes(rec, facts, now).customFields;
      (Reachability in c <==> Stored(rec.customFields, Reachability) != Some(Status(facts.pinged))) &&
      (Reachability in c ==> c[Reachability] == Status(facts.pinged)) &&
      (LastOnline in c <==> facts.pinged) &&
      (LastOnline in c ==> c[LastOnline] == now) &&
      (MacAddress in c <==> Present(facts.mac) && Stored(rec.customFields, MacAddress) != facts.mac) &&
      (MacAddress in c ==> c[MacAddress] == facts.mac.value) &&
      (forall key :: key in c ==> key in {Reachability, LastScan, LastOnline, MacAddress})
    ensures var d := Changes(rec, facts, now).dnsName;
      (d.Some? <==> Present(facts.dns) && rec.dnsName != facts.dns.value) && (d.Some? ==> d == facts.dns)
  {
  }

  /** An address that did not answer and has no record produces no write. */
  lemma UnreachableWithoutRecordWritesNothing(store: Store, ip: string, facts: Facts, now: string)
    requires !facts.pinged && Locate(store, ip) == Absent
    ensures Reconcile(store, ip, facts, now) == NoWrite
  {
  }

  /**
    A reachable address with no record produces exactly one create, for
    `ip/32`, Online, stamped with `now` twice, with `mac or ""` and with a DNS
    name only where one resolved.
  */
  lemma ReachableWithoutRecordCreatesOne(store: Store, ip: string, facts: Facts, now: string)
    requires facts.pinged && Locate(store, ip) == Absent
    ensures var w := Reconcile(store, ip, facts, now);
      w.Create? && w.address == ip + "/32" &&
      w.fields.customFields == map[Reachability := Online, LastScan := now, LastOnline := now,
                                   MacAddress := if facts.mac.Some? then facts.mac.value else ""] &&
      (w.fields.dnsName.Some? <==> Present(facts.dns)) && (w.fields.dnsName.Some? ==> w.fields.dnsName == facts.dns)
  {
  }

  /** The record agrees with what the prober found at time `now`. */
  predicate Reflects(rec: Record, facts: Facts, now: string) {
    Stored(rec.customFields, Reachability) == Some(Status(facts.pinged)) &&
    Stored(rec.customFields, LastScan) == Some(now) &&
    (facts.pinged ==> Stored(rec.customFields, LastOnline) == Some(now)) &&
    (Present(facts.mac) ==> Stored(rec.customFields, MacAddress) == facts.mac) &&
    (Present(facts.dns) ==> rec.dnsName == facts.dns.value)
  }

  /** The filter depends on the addresses only. */
  lemma {:induction false} FilterBelowSeesAddressesOnly(s: Store, t: Store, query: string, n: nat)
    requires n <= |s| == |t| && forall i :: 0 <= i < |s| ==> s[i].address == t[i].address
    ensures FilterBelow(s, query, n) == FilterBelow(t, query, n)
    decreases n
  {
    if n > 0 {
      FilterBelowSeesAddressesOnly(s, t, query, n - 1);
    }
  }

  lemma FilterSeesAddressesOnly(s: Store, t: Store, query: string)
    requires |s| == |t| && forall i :: 0 <= i < |s| ==> s[i].address == t[i].address
    ensures Filter(s, query) == Filter(t, query)
  {
    FilterBelowSeesAddressesOnly(s, t, query, |s|);
  }

  /** Appending a record does not change which earlier records the filter selects. */
  lemma {:induction false} FilterBelowAfterAppend(s: Store, rec: Record, query: string, n: nat)
    requires n <= |s|
    ensures FilterBelow(s + [rec], query, n) == FilterBelow(s, query, n)
    decreases n
  {
    if n > 0 {
      FilterBelowAfterAppend(s, rec, query, n - 1);
      assert (s + [rec])[n - 1] == s[n - 1];
    }
  }

  /** A record appended to the store comes last in every filter that selects it. */
  lemma FilterAfterAppend(s: Store, rec: Record, query: string)
    ensures Filter(s + [rec], query) ==
      if AddressMatches(rec.address, query) then Filter(s, query) + [|s|] else Filter(s, query)
  {
    FilterBelowAfterAppend(s, rec, query, |s|);
    assert (s + [rec])[|s|] == rec;
  }

  /** After an update the record is found where it was, and agrees with the probe. */
  lemma UpdateReflectsProbe(store: Store, ip: string, facts: Facts, now: string)
    requires Reconcile(store, ip, facts, now).Update?
    ensures var w := Reconcile(store, ip, facts, now);
      var after := Apply(store, w);
      Locate(after, ip) == Found(w.at) && Reflects(after[w.at], facts, now) &&
      |after| == |store| && forall i :: 0 <= i < |store| && i != w.at ==> after[i] == store[i]
  {
    var w := Reconcile(store, ip, facts, now);
    var after := Apply(store, w);
    FilterSeesAddressesOnly(store, after, HostKey(ip));
    FilterSeesAddressesOnly(store, after, ip);
    MergeReflectsProbe(store[w.at], facts, now);
  }

  /** A record merged with the changes `scan_ip` computed for it agrees with the probe. */
  lemma MergeReflectsProbe(rec: Record, facts: Facts, now: string)
    ensures Reflects(Merge(rec, Changes(rec, facts, now)), facts, now)
  {
    var c := Changes(rec, facts, now).customFields;
    assert LastScan in c && c[LastScan] == now;
    assert facts.pinged ==> LastOnline in c && c[LastOnline] == now;
  }

  /** The record `scan_ip` creates for a reachable address. */
  function Created(ip: string, facts: Facts, now: string): Record {
    Record(HostKey(ip), NewRecord(facts, now).customFields, if Present(facts.dns) then facts.dns.value else "")
  }

  /** A record appended under `ip/32` where none existed is the one the lookup finds. */
  lemma AppendedRecordFound(store: Store, ip: string, rec: Record)
    requires Filter(store, HostKey(ip)) == [] && rec.address == HostKey(ip)
    ensures Locate(store + [rec], ip) == Found(|store|)
  {
    HostKeyHasMask(ip);
    FilterAfterAppend(store, rec, HostKey(ip));
  }

  /** A created record agrees with the probe of a host that answered. */
  lemma CreatedReflectsProbe(ip: string, facts: Facts, now: string)
    requires facts.pinged
    ensures Reflects(Created(ip, facts, now), facts, now)
  {
    var cf := Created(ip, facts, now).customFields;
    assert Stored(cf, Reachability) == Some(Online);
    assert Stored(cf, LastScan) == Some(now) && Stored(cf, LastOnline) == Some(now);
  }

  /** After a create the new record is the one found, at the end of the store, and agrees with the probe. */
  lemma CreateReflectsProbe(store: Store, ip: string, facts: Facts, now: string)
    requires Reconcile(store, ip, facts, now).Create?
    ensures var after := Apply(store, Reconcile(store, ip, facts, now));
      Locate(after, ip) == Found(|store|) && Reflects(after[|store|], facts, now) && after[..|store|] == store
  {
    var rec := Created(ip, facts, now);
    var after := Apply(store, Reconcile(store, ip, facts, now));
    assert after == store + [rec];
    AppendedRecordFound(store, ip, rec);
    CreatedReflectsProbe(ip, facts, now);
  }

  /** An update leaves the address, and every field it does not carry, as it was. */
  lemma MergeKeepsUncarried(rec: Record, facts: Facts, now: string)
    ensures var merged := Merge(rec, Changes(rec, facts, now));
      merged.address == rec.address &&
      (forall key :: key !in {Reachability, LastScan, LastOnline, MacAddress} ==>
         Stored(merged.customFields, key) == Stored(rec.customFields, key)) &&
      (!Present(facts.mac) ==> Stored(merged.customFields, MacAddress) == Stored(rec.customFields, MacAddress)) &&
      (!Present(facts.dns) ==> merged.dnsName == rec.dnsName)
  {
  }

  /**
    After the write is applied, looking the address up again finds a record
    that agrees with the probe; no other record changed, and an update leaves
    the fields it does not carry (an empty or missing MAC or DNS name among
    them) as they were.
  */
  lemma ReconcileReflectsProbe(store: Store, ip: string, facts: Facts, now: string)
    requires Reconcile(store, ip, facts, now).Update? || Reconcile(store, ip, facts, now).Create?
    ensures var after := Apply(store, Reconcile(store, ip, facts, now));
      Locate(after, ip).Found? && Reflects(after[Locate(after, ip).at], facts, now) &&
      forall i :: 0 <= i < |store| && i != Locate(after, ip).at ==> after[i] == store[i]
    ensures var w := Reconcile(store, ip, facts, now);
      w.Update? ==>
        var before := store[w.at];
        var rec := Apply(store, w)[w.at];
        rec.address == before.address &&
        (forall key :: key !in {Reachability, LastScan, LastOnline, MacAddress} ==>
           Stored(rec.customFields, key) == Stored(before.customFields, key)) &&
        (!Present(facts.mac) ==> Stored(rec.customFields, MacAddress) == Stored(before.customFields, MacAddress)) &&
        (!Present(facts.dns) ==> rec.dnsName == before.dnsName)
  {
    var w := Reconcile(store, ip, facts, now);
    if w.Update? {
      UpdateReflectsProbe(store, ip, facts, now);
      MergeKeepsUncarried(store[w.at], facts, now);
    } else {
      CreateReflectsProbe(store, ip, facts, now);
      var after := Apply(store, w);
      forall i | 0 <= i < |store| ensures after[i] == store[i] {
        assert after[..|store|][i] == store[i];
      }
    }
  }

  /** The custom fields a scan of an up-to-date record carries: the timestamps and nothing else. */
  function Timestamps(pinged: bool, now: string): map<string, string> {
    if pinged then map[LastScan := now, LastOnline := now] else map[LastScan := now]
  }

  /** A record that already agrees with the probe is sent only fresh timestamps. */
  lemma ReflectedRecordGetsTimestampsOnly(rec: Record, facts: Facts, earlier: string, now: string)
    requires Reflects(rec, facts, earlier)
    ensures Changes(rec, facts, now) == Fields(Timestamps(facts.pinged, now), None)
  {
    assert WrittenKeys(rec, facts) == Timestamps(facts.pinged, now).Keys;
  }

  /**
    Scanning again with the same findings after a write was applied only
    refreshes `last_scan` (and `last_online` for a host that answered).
  */
  lemma RescanRefreshesTimestampsOnly(store: Store, ip: string, facts: Facts, now: string, later: string)
    requires Reconcile(store, ip, facts, now).Update? || Reconcile(store, ip, facts, now).Create?
    ensures var after := Apply(store, Reconcile(store, ip, facts, now));
      Locate(after, ip).Found? &&
      Reconcile(after, ip, facts, later) == Update(Locate(after, ip).at, Fields(Timestamps(facts.pinged, later), None))
  {
    ReconcileReflectsProbe(store, ip, facts, now);
    var after := Apply(store, Reconcile(store, ip, facts, now));
    ReflectedRecordGetsTimestampsOnly(after[Locate(after, ip).at], facts, now, later);
  }

  /** A map holding the written value at exactly the written keys is the update's custom fields. */
  lemma FieldsByKey(m: map<string, string>, keys: set<string>, facts: Facts, now: string)
    requires m.Keys == keys && forall key :: key in m ==> m[key] == FieldValue(key, facts, now)
    ensures m == map key | key in keys :: FieldValue(key, facts, now)
  {
  }

  /** The body of `scan_ip`'s update branch: the `updates` dict, built entry by entry. */
  method UpdatesFor(rec: Record, pinged: bool, mac: Option<string>, dns: Option<string>, now: string)
    returns (updates: map<string, string>, dnsName: Option<string>)
    ensures Fields(updates, dnsName) == Changes(rec, Facts(pinged, mac, dns), now)
    ensures LastScan in updates
  {
    var status := if pinged then Online else Offline;
    var cf := rec.customFields;
    updates := map[];
    if Stored(cf, Reachability) != Some(status) {
      updates := updates[Reachability := status];
    }
    updates := updates[LastScan := now];
    if pinged {
      updates := updates[LastOnline := now];
    }
    if Present(mac) && Stored(cf, MacAddress) != mac {
      updates := updates[MacAddress := mac.value];
    }
    dnsName := None;
    if Present(dns) && rec.dnsName != dns.value {
      dnsName := dns;
    }
    ghost var facts := Facts(pinged, mac, dns);
    assert updates.Keys == WrittenKeys(rec, facts);
    FieldsByKey(updates, WrittenKeys(rec, facts), facts, now);
  }

  /**
    `scan_ip`: probe the address, look its record up, and build the update
    field by field, or the payload of a new record.
  */
  method ScanIp(ip: string, env: Environment, now: string, store: Store) returns (w: Write, tried: seq<string>)
    ensures tried == ProbeHost(env).tried
    ensures w == Reconcile(store, ip, ProbeHost(env).result, now)
  {
    var ping := IsPingable(env.fpingPrimary, env.fpingFallback);
    tried := ping.tried;
    var pinged := ping.result;
    var dns: Option<string> := None;
    var mac: Option<string> := None;
    if pinged {
      dns := env.reverseDns;
      tried := tried + [ReverseDns];
      var lookups;
      mac, lookups := GetMac(env.ipPrimary, env.ipFallback);
      tried := tried + lookups;
    }
    assert Facts(pinged, mac, dns) == ProbeHost(env).result;

    match Locate(store, ip) {
      case Ambiguous =>
        w := LookupFailed;
      case Found(i) =>
        var updates, dnsName := UpdatesFor(store[i], pinged, mac, dns, now);
        var changed := |updates| > 0 || dnsName.Some?;
        w := if changed then Update(i, Fields(updates, dnsName)) else NoWrite;
      case Absent =>
        if pinged {
          var payload := map[Reachability := Online, LastScan := now, LastOnline := now,
                             MacAddress := if mac.Some? then mac.value else ""];
          w := Create(HostKey(ip), Fields(payload, if Present(dns) then dns else None));
        } else {
          w := NoWrite;
        }
    }
  }
}
