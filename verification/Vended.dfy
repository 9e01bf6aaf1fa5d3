/** Which vended credentials a table location gets. */
module Vended {
  import opened Common

  // ----- URI schemes

  predicate SchemeEndsAt(uri: string, i: nat) { i + 3 <= |uri| && uri[i..i + 3] == "://" }

  /** Where the first `://` stands, as `split_once` finds it */
  function SchemeEnd(uri: string, from: nat): (r: Option<nat>)
    requires from <= |uri|
    ensures r.Some? ==>
      from <= r.value && SchemeEndsAt(uri, r.value) && forall k: nat :: from <= k < r.value ==> !SchemeEndsAt(uri, k)
    ensures r.None? ==> forall k: nat :: from <= k ==> !SchemeEndsAt(uri, k)
    decreases |uri| - from
  {
    if SchemeEndsAt(uri, from) then Some(from) else if from == |uri| then None else SchemeEnd(uri, from + 1)
  }

  /** `lowercase_scheme` */
  function LowercaseScheme(uri: string): (r: string)
    ensures |r| == |uri|
  {
    var end := SchemeEnd(uri, 0);
    if end.Some? && exists k :: 0 <= k < end.value && IsUpper(uri[k])
    then Lower(uri[..end.value]) + "://" + uri[end.value + 3..]
    else uri
  }

  lemma LowerWithoutUpper(s: string)
    requires forall k :: 0 <= k < |s| ==> !IsUpper(s[k])
    ensures Lower(s) == s
  {
  }

  lemma Reassembled(uri: string, e: nat)
    requires SchemeEndsAt(uri, e)
    ensures uri == uri[..e] + uri[e..] && uri[e..] == "://" + uri[e + 3..]
  {
    assert uri[e..] == uri[e..e + 3] + uri[e + 3..];
  }

  /** Folding changes the letters before the first `://` and nothing else. */
  lemma FoldsSchemeOnly(uri: string)
    ensures var end := SchemeEnd(uri, 0);
      LowercaseScheme(uri) == if end.Some? then Lower(uri[..end.value]) + uri[end.value..] else uri
  {
    hide SchemeEnd, SchemeEndsAt, Lower;
    var end := SchemeEnd(uri, 0);
    if end.Some? {
      var e := end.value;
      EndInside(uri, e);
      Reassembled(uri, e);
      if !exists k :: 0 <= k < e && IsUpper(uri[k]) {
        LowerWithoutUpper(uri[..e]);
      } else {
        assert Lower(uri[..e]) + "://" + uri[e + 3..] == Lower(uri[..e]) + ("://" + uri[e + 3..]);
      }
    }
  }

  lemma EndInside(uri: string, e: nat)
    requires SchemeEndsAt(uri, e)
    ensures e + 3 <= |uri|
  {
  }

  // ----- the entry a location gets

  type Config = map<string, string>

  datatype Entry = Entry(prefix: string, config: Config)

  /** The entry's prefix is not empty and starts the location, schemes compared lower-case. */
  predicate Matches(location: string, e: Entry)
  {
    e.prefix != "" && LowercaseScheme(e.prefix) <= LowercaseScheme(location)
  }

  /** `max_by_key` over the matching entries: the last of the longest */
  function Best(location: string, entries: seq<Entry>): (r: Option<Entry>)
  {
    if entries == [] then None
    else
      var rest := Best(location, entries[1..]);
      if Matches(location, entries[0]) && (rest.None? || |entries[0].prefix| > |rest.value.prefix|)
      then Some(entries[0])
      else rest
  }

  /** `select_credential_source` */
  function CredentialSource(config: Config, credentials: Option<seq<Entry>>, location: string): (r: Config)
  {
    if credentials.None? then config
    else
      var best := Best(location, credentials.value);
      if best.Some? then best.value.config else config
  }

  // ----- what is handed out, read off the entries

  predicate Separates(uri: string, e: nat)
  {
    e + 2 < |uri| && uri[e] == ':' && uri[e + 1] == '/' && uri[e + 2] == '/'
  }

  /** Place `k` lies before the first `://`. */
  ghost predicate InScheme(uri: string, k: nat)
  {
    exists e: nat :: k < e && Separates(uri, e) && forall i: nat :: i < e ==> !Separates(uri, i)
  }

  lemma SeparatesExactly(uri: string, e: nat)
    ensures SchemeEndsAt(uri, e) <==> Separates(uri, e)
  {
    if e + 3 <= |uri| {
      assert uri[e..e + 3] == [uri[e], uri[e + 1], uri[e + 2]];
    }
  }

  ghost function Folded(uri: string, k: nat): (c: char)
    requires k < |uri|
  {
    if InScheme(uri, k) then LowerChar(uri[k]) else uri[k]
  }

  /** The location begins with the prefix, which is not empty, letter case of the schemes aside. */
  ghost predicate Begins(location: string, prefix: string)
  {
    prefix != "" && |prefix| <= |location| && forall k: nat :: k < |prefix| ==> Folded(prefix, k) == Folded(location, k)
  }

  lemma FoldedAt(uri: string, k: nat)
    requires k < |uri|
    ensures LowercaseScheme(uri)[k] == Folded(uri, k)
  {
    hide LowercaseScheme;
    FoldsSchemeOnly(uri);
    var end := SchemeEnd(uri, 0);
    forall e: nat ensures SchemeEndsAt(uri, e) <==> Separates(uri, e) { SeparatesExactly(uri, e); }
    if end.Some? && k < end.value {
      assert Separates(uri, end.value);
    }
  }

  lemma MatchesExactly(location: string, e: Entry)
    ensures Matches(location, e) <==> Begins(location, e.prefix)
  {
    hide LowercaseScheme, Folded;
    var p, l := LowercaseScheme(e.prefix), LowercaseScheme(location);
    forall k: nat | k < |p| ensures p[k] == Folded(e.prefix, k) { FoldedAt(e.prefix, k); }
    forall k: nat | k < |l| ensures l[k] == Folded(location, k) { FoldedAt(location, k); }
    PrefixExactly(p, l);
  }

  /** Entry `k` is a longest one that begins the location, and the last of those. */
  ghost predicate IsChosen(location: string, entries: seq<Entry>, k: nat)
  {
    && k < |entries| && Begins(location, entries[k].prefix)
    && forall j: nat :: j < |entries| && Begins(location, entries[j].prefix) ==>
         if j <= k then |entries[j].prefix| <= |entries[k].prefix| else |entries[j].prefix| < |entries[k].prefix|
  }

  /**
   The credentials of the last longest entry that begins the location are handed out, and the flat
   map if there is no list or none begins it.
   */
  lemma CredentialsAreChosen(config: Config, credentials: Option<seq<Entry>>, location: string)
    ensures var r := CredentialSource(config, credentials, location);
      && (credentials.None? ==> r == config)
      && (credentials.Some? && (forall e | e in credentials.value :: !Begins(location, e.prefix)) ==> r == config)
      && (credentials.Some? && (exists e | e in credentials.value :: Begins(location, e.prefix)) ==>
            exists k: nat :: IsChosen(location, credentials.value, k) && r == credentials.value[k].config)
  {
    hide Matches, Begins, Best;
    if credentials.Some? {
      var entries := credentials.value;
      forall e | e in entries ensures Matches(location, e) <==> Begins(location, e.prefix) {
        MatchesExactly(location, e);
      }
      BestIsLongest(location, entries);
      if Best(location, entries).Some? {
        var k := BestIsLast(location, entries);
        assert forall j: nat :: j < |entries| ==> entries[j] in entries;
        assert IsChosen(location, entries, k);
      }
    }
  }

  lemma {:induction false} BestIsLongest(location: string, entries: seq<Entry>)
    ensures var best := Best(location, entries);
      && (best.None? ==> forall e | e in entries :: !Matches(location, e))
      && (best.Some? ==> best.value in entries && Matches(location, best.value)
                         && forall e | e in entries && Matches(location, e) :: |e.prefix| <= |best.value.prefix|)
  {
    hide Matches;
    if entries != [] {
      BestIsLongest(location, entries[1..]);
      assert entries == [entries[0]] + entries[1..];
    }
  }

  /** Of the longest matches the last one is taken. */
  lemma {:induction false} BestIsLast(location: string, entries: seq<Entry>) returns (k: nat)
    requires Best(location, entries).Some?
    ensures k < |entries| && entries[k] == Best(location, entries).value
    ensures forall j :: k < j < |entries| && Matches(location, entries[j]) ==> |entries[j].prefix| < |entries[k].prefix|
  {
    hide Matches;
    var rest := Best(location, entries[1..]);
    if Best(location, entries) == rest && rest.Some? {
      k := BestIsLast(location, entries[1..]);
      k := k + 1;
    } else {
      k := 0;
      BestIsLongest(location, entries[1..]);
    }
  }

  /** Matches of one length name one folded prefix. */
  lemma SameLengthSamePrefix(location: string, a: Entry, b: Entry)
    requires Matches(location, a) && Matches(location, b) && |a.prefix| == |b.prefix|
    ensures LowercaseScheme(a.prefix) == LowercaseScheme(b.prefix)
  {
    hide LowercaseScheme;
    var l := LowercaseScheme(location);
    assert LowercaseScheme(a.prefix) == l[..|a.prefix|] == LowercaseScheme(b.prefix);
  }

  /** No two entries name the same prefix once their schemes are folded. */
  ghost predicate OneEntryEach(entries: seq<Entry>)
  {
    forall a, b | a in entries && b in entries && LowercaseScheme(a.prefix) == LowercaseScheme(b.prefix) :: a == b
  }

  /**
   The selected entry names a longest matching prefix whatever the order of the entries; the
   configuration then is the same too unless two entries name that prefix.
   */
  lemma SelectionIgnoresOrder(config: Config, a: seq<Entry>, b: seq<Entry>, location: string)
    requires forall e :: e in a <==> e in b
    ensures Best(location, a).Some? == Best(location, b).Some?
    ensures Best(location, a).Some? ==>
      LowercaseScheme(Best(location, a).value.prefix) == LowercaseScheme(Best(location, b).value.prefix)
    ensures OneEntryEach(a) ==>
      CredentialSource(config, Some(a), location) == CredentialSource(config, Some(b), location)
  {
    hide Best, LowercaseScheme, Matches;
    BestIsLongest(location, a);
    BestIsLongest(location, b);
    if Best(location, a).Some? && Best(location, b).Some? {
      SameLengthSamePrefix(location, Best(location, a).value, Best(location, b).value);
    }
  }

  // ----- the SAS token a host gets

  const SAS_PREFIX := "adls.sas-token."

  datatype Item = Item(key: string, value: string)

  /** `vended_config_value` */
  function Value(vended: Config, key: string): (r: Option<string>)
  {
    if key in vended && vended[key] != "" then Some(vended[key]) else None
  }

  predicate ForHost(host: string, i: Item)
  {
    i.value != "" && SAS_PREFIX <= i.key && Lower(i.key[|SAS_PREFIX|..]) == Lower(host)
  }

  /** `min_by` over the matching items, in the order the map hands them out */
  function Smallest(host: string, items: seq<Item>): (r: Option<Item>)
  {
    if items == [] then None
    else
      var rest := Smallest(host, items[1..]);
      if ForHost(host, items[0]) && (rest.None? || !Less(rest.value.key, items[0].key)) then Some(items[0]) else rest
  }

  /** An order in which a map hands out its items */
  ghost predicate Enumerates(items: seq<Item>, vended: Config)
  {
    && (forall k :: 0 <= k < |items| ==> items[k].key in vended && vended[items[k].key] == items[k].value)
    && (forall key | key in vended :: Item(key, vended[key]) in items)
  }

  /** `iceberg_vended_sas` */
  function VendedSas(vended: Config, items: seq<Item>, host: string): (r: Result<string>)
  {
    var exact := Value(vended, SAS_PREFIX + host);
    if exact.Some? then Ok(exact.value)
    else
      var smallest := Smallest(host, items);
      if smallest.Some? then Ok(smallest.value.value) else Err
  }

  lemma {:induction false} SmallestIsSmallest(host: string, items: seq<Item>)
    ensures var r := Smallest(host, items);
      && (r.None? ==> forall i | i in items :: !ForHost(host, i))
      && (r.Some? ==> r.value in items && ForHost(host, r.value)
                      && forall i | i in items && ForHost(host, i) :: !Less(i.key, r.value.key))
  {
    hide ForHost;
    if items != [] {
      var head, rest := items[0], Smallest(host, items[1..]);
      SmallestIsSmallest(host, items[1..]);
      assert items == [head] + items[1..];
      LessIrreflexive(head.key);
      if rest.Some? && ForHost(host, head) && !Less(rest.value.key, head.key) {
        forall i | i in items[1..] && ForHost(host, i) ensures !Less(i.key, head.key) {
          NoneBetween(i.key, rest.value.key, head.key);
        }
      } else if rest.Some? {
        LessTotal(rest.value.key, head.key);
      }
    }
  }

  lemma NoneBetween(i: string, rest: string, head: string)
    requires !Less(i, rest) && !Less(rest, head)
    ensures !Less(i, head)
  {
    hide Less;
    LessTotal(i, rest);
    LessTotal(rest, head);
    if Less(i, head) {
      LessTotal(i, head);
      if rest != head {
        LessTransitive(i, head, rest);
      }
    }
  }

  /** The key names a SAS token of the host, letter case of the host aside. */
  predicate NamesHost(key: string, host: string)
  {
    |key| == 15 + |host| && key[..15] == "adls.sas-token."
    && forall k :: 0 <= k < |host| ==> LowerChar(key[15 + k]) == LowerChar(host[k])
  }

  /** The exact spelling's token if it has one; else that of the smallest key for the host in any casing; else none */
  ghost predicate IsSasOf(vended: Config, host: string, r: Result<string>)
  {
    var exact := "adls.sas-token." + host;
    if exact in vended && vended[exact] != "" then r == Ok(vended[exact])
    else if r.Err? then forall key | key in vended :: !(vended[key] != "" && NamesHost(key, host))
    else
      exists key :: key in vended && vended[key] != "" && NamesHost(key, host) && r.value == vended[key]
        && forall other | other in vended && vended[other] != "" && NamesHost(other, host) :: !Less(other, key)
  }

  lemma ForHostExactly(host: string, i: Item)
    ensures ForHost(host, i) <==> i.value != "" && NamesHost(i.key, host)
  {
    assert |SAS_PREFIX| == 15;
    if |i.key| >= 15 {
      LowerSame(i.key[15..], host);
    }
  }

  lemma SasIsSmallestKey(vended: Config, items: seq<Item>, host: string)
    requires Enumerates(items, vended)
    ensures IsSasOf(vended, host, VendedSas(vended, items, host))
  {
    hide ForHost, Less, Smallest, NamesHost;
    SmallestIsSmallest(host, items);
    forall i | i in items ensures ForHost(host, i) <==> i.value != "" && NamesHost(i.key, host) {
      ForHostExactly(host, i);
    }
    var smallest := Smallest(host, items);
    if smallest.Some? && Value(vended, SAS_PREFIX + host).None? {
      var key := smallest.value.key;
      assert Item(key, vended[key]) == smallest.value;
    }
  }

  /** The pick depends on the map's contents alone, never on the order it hands its items out. */
  lemma SasIgnoresOrder(vended: Config, a: seq<Item>, b: seq<Item>, host: string)
    requires Enumerates(a, vended) && Enumerates(b, vended)
    ensures VendedSas(vended, a, host) == VendedSas(vended, b, host)
  {
    hide ForHost, Less, Smallest;
    SmallestIsSmallest(host, a);
    SmallestIsSmallest(host, b);
    var x, y := Smallest(host, a), Smallest(host, b);
    if x.Some? {
      assert Item(x.value.key, vended[x.value.key]) in b;
    }
    if y.Some? {
      assert Item(y.value.key, vended[y.value.key]) in a;
    }
    if x.Some? && y.Some? {
      LessTotal(x.value.key, y.value.key);
    }
  }
}
