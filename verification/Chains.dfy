/** Entries against maps: when a chain holds exactly one rule per address, and
    exactly the rules of a plan. */
module Chains {
  import opened Text
  import opened Address
  import opened Ordered
  import opened Iptables
  import opened Kernel

  ghost predicate DistinctIps(entries: seq<RuleEntry>) {
    forall i, j | 0 <= i < j < |entries| :: entries[i].ip != entries[j].ip
  }

  lemma {:induction false} MapOfKeys(entries: seq<RuleEntry>)
    ensures MapOf(entries).Keys == set e | e in entries :: e.ip
  {
    if entries != [] {
      var init, last := entries[..|entries| - 1], entries[|entries| - 1];
      MapOfKeys(init);
      assert entries == init + [last];
    }
  }

  ghost predicate HasIp(entries: seq<RuleEntry>, ip: Addr) {
    exists i :: 0 <= i < |entries| && entries[i].ip == ip
  }

  lemma DistinctSnoc(init: seq<RuleEntry>, last: RuleEntry)
    ensures DistinctIps(init + [last]) <==> DistinctIps(init) && !HasIp(init, last.ip)
  {
    var all := init + [last];
    assert forall i | 0 <= i < |init| :: all[i] == init[i];
    if DistinctIps(all) {
      forall i, j | 0 <= i < j < |init| ensures init[i].ip != init[j].ip {
        assert all[i].ip != all[j].ip;
      }
      forall i | 0 <= i < |init| ensures init[i].ip != last.ip {
        assert all[i].ip != all[|init|].ip;
      }
    }
  }

  /** Merging never adds addresses, and loses none exactly when they differ. */
  lemma {:induction false} MapOfSize(entries: seq<RuleEntry>)
    ensures |MapOf(entries)| <= |entries|
    ensures |MapOf(entries)| == |entries| <==> DistinctIps(entries)
  {
    if entries != [] {
      var init, last := entries[..|entries| - 1], entries[|entries| - 1];
      MapOfSize(init);
      MapOfKeys(init);
      DistinctSnoc(init, last);
      assert entries == init + [last];
      assert last.ip in MapOf(init) <==> HasIp(init, last.ip);
      AddEntrySize(MapOf(init), last);
    }
  }

  lemma AddEntrySize(m: AddrMap, e: RuleEntry)
    ensures |AddEntry(m, e)| == |m| + (if e.ip in m then 0 else 1)
  {
    assert AddEntry(m, e).Keys == m.Keys + {e.ip};
  }

  lemma {:induction false} MapOfDistinct(entries: seq<RuleEntry>)
    requires DistinctIps(entries)
    ensures forall e | e in entries :: e.ip in MapOf(entries) && MapOf(entries)[e.ip] == e.names
  {
    if entries != [] {
      var init, last := entries[..|entries| - 1], entries[|entries| - 1];
      MapOfDistinct(init);
      MapOfKeys(init);
      assert entries == init + [last];
      assert last.ip !in MapOf(init);
      assert {} + last.names == last.names;
    }
  }

  lemma EntriesOfMembers(m: AddrMap)
    ensures DistinctIps(EntriesOf(m))
    ensures forall e: RuleEntry :: e in EntriesOf(m) <==> e.ip in m && m[e.ip] == e.names
  {
    var keys, entries := SortedAddrs(m.Keys), EntriesOf(m);
    forall i | 0 <= i < |keys| ensures keys[i] in m && entries[i] == RuleEntry(keys[i], m[keys[i]]) {
      assert keys[i] in keys;
    }
    forall e: RuleEntry | e.ip in m && m[e.ip] == e.names ensures e in entries {
      assert e.ip in keys;
      var i :| 0 <= i < |keys| && keys[i] == e.ip;
      assert entries[i] == e;
    }
  }

  /** The map of a map's entries is the map itself. */
  lemma MapOfEntriesOf(m: AddrMap)
    ensures MapOf(EntriesOf(m)) == m
  {
    EntriesOfMembers(m);
    MapFromMembers(EntriesOf(m), m);
  }

  lemma {:induction false} EntriesAtMostSpecs(specs: seq<string>)
    ensures |EntriesIn(specs)| <= |specs|
  {
    if specs != [] {
      EntriesAtMostSpecs(specs[1..]);
    }
  }

  /** Parsed entries never outnumber counted rule lines. */
  lemma EntriesAtMostRules(text: string, chain: string)
    ensures |ReadOf(text, chain).entries| <= ReadOf(text, chain).ruleLines
  {
    EntriesAtMostSpecs(RuleSpecs(text, chain));
    CountIsSpecs(Lines(text), chain);
  }

  lemma {:induction false} DistinctMultiset(a: seq<RuleEntry>, e: RuleEntry)
    requires DistinctIps(a)
    ensures multiset(a)[e] == if e in a then 1 else 0
  {
    if a != [] {
      var init, last := a[..|a| - 1], a[|a| - 1];
      DistinctMultiset(init, e);
      assert a == init + [last];
      assert last !in init;
    }
  }

  lemma TwiceInMultiset(a: seq<RuleEntry>, i: nat, j: nat)
    requires i < j < |a| && a[i] == a[j]
    ensures multiset(a)[a[i]] >= 2
  {
    assert a == a[..j] + [a[j]] + a[j + 1..];
    assert a[i] in a[..j];
    assert multiset(a[..j])[a[i]] >= 1;
  }

  lemma PermutationDistinct(a: seq<RuleEntry>, b: seq<RuleEntry>)
    requires multiset(a) == multiset(b) && DistinctIps(b)
    ensures DistinctIps(a)
  {
    forall i, j | 0 <= i < j < |a| ensures a[i].ip != a[j].ip {
      assert a[i] in multiset(b) && a[j] in multiset(b);
      if a[i].ip == a[j].ip {
        assert a[i] in b && a[j] in b;
        assert a[i] == a[j];
        TwiceInMultiset(a, i, j);
        DistinctMultiset(b, a[i]);
      }
    }
  }

  lemma SameMembers(a: seq<RuleEntry>, b: seq<RuleEntry>)
    requires DistinctIps(a) && DistinctIps(b)
    ensures multiset(a) == multiset(b) <==> forall e :: e in a <==> e in b
  {
    if forall e :: e in a <==> e in b {
      forall e ensures multiset(a)[e] == multiset(b)[e] {
        DistinctMultiset(a, e);
        DistinctMultiset(b, e);
      }
    }
    if multiset(a) == multiset(b) {
      forall e ensures e in a <==> e in b {
        assert e in a <==> e in multiset(a);
        assert e in b <==> e in multiset(b);
      }
    }
  }

  lemma MapOfMembers(entries: seq<RuleEntry>, e: RuleEntry)
    requires DistinctIps(entries)
    ensures e in entries <==> e.ip in MapOf(entries) && MapOf(entries)[e.ip] == e.names
  {
    MapOfDistinct(entries);
    MapOfKeys(entries);
    if e.ip in MapOf(entries) {
      var f :| f in entries && f.ip == e.ip;
    }
  }

  lemma MapFromMembers(entries: seq<RuleEntry>, m: AddrMap)
    requires DistinctIps(entries)
    ensures MapOf(entries) == m <==> forall e :: e in entries <==> e in EntriesOf(m)
  {
    EntriesOfMembers(m);
    forall e ensures e in entries <==> e.ip in MapOf(entries) && MapOf(entries)[e.ip] == e.names {
      MapOfMembers(entries, e);
    }
    if forall e :: e in entries <==> e in EntriesOf(m) {
      SameLookups(MapOf(entries), m);
    }
  }

  lemma SameLookups(a: AddrMap, b: AddrMap)
    requires forall e: RuleEntry :: (e.ip in a && a[e.ip] == e.names) <==> (e.ip in b && b[e.ip] == e.names)
    ensures a == b
  {
    forall ip: Addr ensures ip in a <==> ip in b {
      if ip in a { assert RuleEntry(ip, a[ip]).ip in b; }
      if ip in b { assert RuleEntry(ip, b[ip]).ip in a; }
    }
    forall ip | ip in a ensures a[ip] == b[ip] {
      assert RuleEntry(ip, a[ip]).names == b[ip];
    }
  }

  /** "Not dirty, and the map equals the plan" says exactly that every rule line
      parses and that the parsed rules are a permutation of the plan's
      (address, names) pairs: nothing foreign, nothing missing, nothing merged. */
  lemma CleanMeansExactlyThePlan(text: string, chain: string, plan: AddrMap)
    ensures
      var r := ReadOf(text, chain);
      !r.IsDirty() && MapOf(r.entries) == plan <==>
      r.ruleLines == |r.entries| && multiset(r.entries) == multiset(EntriesOf(plan))
  {
    var r := ReadOf(text, chain);
    MapOfSize(r.entries);
    if multiset(r.entries) == multiset(EntriesOf(plan)) {
      EntriesOfMembers(plan);
      PermutationDistinct(r.entries, EntriesOf(plan));
    }
    if DistinctIps(r.entries) {
      EntriesOfMembers(plan);
      MapFromMembers(r.entries, plan);
      SameMembers(r.entries, EntriesOf(plan));
    }
  }
}
