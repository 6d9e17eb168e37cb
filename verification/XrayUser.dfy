/**
 One user of pkg/xray/user.go: the recent source IPs of the current sync cycle, kept as a bounded
 FIFO with a membership index, their merge with the live connections, and the user object.
 */
module XrayUser {
  import opened Base

  const MAX_RECENT_IPS: nat := 10

  // --- the bounded FIFO ---

  function Elements(s: seq<string>): set<string> {
    set x | x in s
  }

  function Record(ips: seq<string>, ip: string): seq<string> {
    if ip == "" || ip in ips then ips
    else
      var longer := ips + [ip];
      if |longer| > MAX_RECENT_IPS then longer[1..] else longer
  }

  /** The list after a cycle that saw these IPs, in order. */
  function Recent(seen: seq<string>): seq<string> {
    if seen == [] then [] else Record(Recent(seen[..|seen| - 1]), seen[|seen| - 1])
  }

  function LastTen(s: seq<string>): seq<string> {
    if |s| <= MAX_RECENT_IPS then s else s[|s| - MAX_RECENT_IPS..]
  }

  /** The admission log of a cycle, by itself: an IP is admitted when it is not empty and not among
      the last ten admitted. */
  function Admissions(seen: seq<string>): seq<string> {
    if seen == [] then []
    else
      var before := Admissions(seen[..|seen| - 1]);
      var ip := seen[|seen| - 1];
      if ip == "" || ip in LastTen(before) then before else before + [ip]
  }

  lemma RecordAdmits(log: seq<string>, ip: string)
    requires ip != "" && ip !in LastTen(log)
    ensures Record(LastTen(log), ip) == LastTen(log + [ip])
  {
  }

  /** The list is always the last ten admissions. */
  lemma {:induction false} RecentIsLastTen(seen: seq<string>)
    ensures Recent(seen) == LastTen(Admissions(seen))
    ensures var log := Admissions(seen); Recent(seen) == if |log| <= 10 then log else log[|log| - 10..]
  {
    if seen != [] {
      var before := Admissions(seen[..|seen| - 1]);
      var ip := seen[|seen| - 1];
      RecentIsLastTen(seen[..|seen| - 1]);
      if ip != "" && ip !in LastTen(before) {
        RecordAdmits(before, ip);
      }
    }
  }

  /** Any eleven consecutive admissions are pairwise distinct. */
  lemma {:induction false} ElevenAdmissionsDistinct(seen: seq<string>, i: nat, j: nat)
    requires i < j < |Admissions(seen)| && j - i <= 10
    ensures Admissions(seen)[i] != Admissions(seen)[j]
  {
    var before := Admissions(seen[..|seen| - 1]);
    if j < |before| {
      ElevenAdmissionsDistinct(seen[..|seen| - 1], i, j);
    } else {
      var k := if |before| <= MAX_RECENT_IPS then i else i - (|before| - MAX_RECENT_IPS);
      assert LastTen(before)[k] == before[i];
    }
  }

  // --- merging the live connections ---

  function Merge(ips: seq<string>, live: seq<string>): seq<string>
    decreases |live|
  {
    if live == [] then ips
    else Merge(if live[0] == "" || live[0] in ips then ips else ips + [live[0]], live[1..])
  }

  /** Merging keeps its input as a prefix, adds exactly the new non-empty IPs, and no duplicates. */
  lemma {:induction false} MergeAddsOnce(ips: seq<string>, live: seq<string>)
    ensures ips <= Merge(ips, live)
    ensures Elements(Merge(ips, live)) == Elements(ips) + (Elements(live) - {""})
    ensures Distinct(ips) ==> Distinct(Merge(ips, live))
    decreases |live|
  {
    if live != [] {
      var next := if live[0] == "" || live[0] in ips then ips else ips + [live[0]];
      MergeAddsOnce(next, live[1..]);
      assert live == [live[0]] + live[1..];
      assert Elements(live) == {live[0]} + Elements(live[1..]);
      if live[0] == "" {
        assert Elements(live) - {""} == Elements(live[1..]) - {""};
      } else {
        assert Elements(next) == Elements(ips) + {live[0]};
        assert Elements(live) - {""} == {live[0]} + (Elements(live[1..]) - {""});
      }
    }
  }

  /** One more live connection adds its IP at the end if it is new. */
  lemma {:induction false} MergeNext(ips: seq<string>, live: seq<string>, ip: string)
    ensures var merged := Merge(ips, live);
            Merge(ips, live + [ip]) == if ip == "" || ip in merged then merged else merged + [ip]
    decreases |live|
  {
    if live == [] {
      assert ([] + [ip])[1..] == [] && ([] + [ip])[0] == ip;
    } else {
      assert (live + [ip])[0] == live[0] && (live + [ip])[1..] == live[1..] + [ip];
      var next := if live[0] == "" || live[0] in ips then ips else ips + [live[0]];
      MergeNext(next, live[1..], ip);
    }
  }

  lemma {:induction false} DistinctSize(s: seq<string>)
    requires Distinct(s)
    ensures |Elements(s)| == |s|
  {
    if s != [] {
      var n := |s| - 1;
      DistinctSize(s[..n]);
      assert Elements(s) == Elements(s[..n]) + {s[n]};
    }
  }

  /** The order in which the live connections are listed does not matter: the merged list holds the
      same IPs, each once. */
  lemma {:induction false} MergeOrderIrrelevant(ips: seq<string>, live: seq<string>, other: seq<string>)
    requires Distinct(ips) && Elements(live) == Elements(other)
    ensures Elements(Merge(ips, live)) == Elements(Merge(ips, other))
    ensures |Merge(ips, live)| == |Merge(ips, other)|
  {
    MergeAddsOnce(ips, live);
    MergeAddsOnce(ips, other);
    DistinctSize(Merge(ips, live));
    DistinctSize(Merge(ips, other));
  }

  method MergeLiveIPs(ips: seq<string>, live: seq<string>) returns (merged: seq<string>)
    ensures merged == Merge(ips, live)
  {
    merged := ips;
    if |live| == 0 {
      return;
    }
    var seen := set x | x in ips;
    for i := 0 to |live|
      invariant seen == Elements(merged)
      invariant Merge(merged, live[i..]) == Merge(ips, live)
    {
      assert live[i..][0] == live[i] && live[i..][1..] == live[i + 1..];
      var ip := live[i];
      if ip == "" || ip in seen {
        continue;
      }
      seen := seen + {ip};
      merged := merged + [ip];
    }
  }

  // --- the user object ---

  /** What an inbound stores for a user of each protocol; other protocols have no account. */
  datatype Account = Trojan(password: string) | Shadowsocks(key: string) | Vless(id: string, flow: string)

  datatype Profile = Profile(method_: string, password: string, flow: string, enable: bool)

  function AccountOf(protocol: string, p: Profile): Option<Account> {
    if protocol == "trojan" then Some(Trojan(p.password))
    else if protocol == "ss" then Some(Shadowsocks(p.password))
    else if protocol == "vless" then Some(Vless(p.password, p.flow))
    else None
  }

  /** What the accounts are, spelled out by protocol. */
  lemma AccountIs(protocol: string, p: Profile)
    ensures protocol == "trojan" ==> AccountOf(protocol, p) == Some(Trojan(p.password))
    ensures protocol == "ss" ==> AccountOf(protocol, p) == Some(Shadowsocks(p.password))
    ensures protocol == "vless" ==> AccountOf(protocol, p) == Some(Vless(p.password, p.flow))
    ensures protocol !in ["trojan", "ss", "vless"] ==> AccountOf(protocol, p).None?
  {
  }

  class User {
    const ID: int
    const Level: int
    const Protocol: string
    var running: bool
    var profile: Profile
    var UploadTraffic: int
    var DownloadTraffic: int
    var UploadTotal: int
    var DownloadTotal: int
    var recentIPs: seq<string>
    var recentIPSet: set<string>

    ghost predicate Valid()
      reads this
    {
      recentIPSet == Elements(recentIPs) && Distinct(recentIPs) && |recentIPs| <= MAX_RECENT_IPS
    }

    constructor (id: int, level: int, protocol: string, profile: Profile)
      ensures Valid() && recentIPs == [] && !running
      ensures ID == id && Level == level && Protocol == protocol && this.profile == profile
      ensures UploadTraffic == DownloadTraffic == UploadTotal == DownloadTotal == 0
    {
      ID, Level, Protocol := id, level, protocol;
      this.profile := profile;
      running := false;
      UploadTraffic, DownloadTraffic, UploadTotal, DownloadTotal := 0, 0, 0, 0;
      recentIPs, recentIPSet := [], {};
    }

    method RecordIP(ip: string)
      requires Valid()
      modifies this`recentIPs, this`recentIPSet
      ensures Valid() && recentIPs == Record(old(recentIPs), ip)
    {
      if ip == "" || ip in recentIPSet {
        return;
      }
      recentIPs := recentIPs + [ip];
      recentIPSet := recentIPSet + {ip};
      assert recentIPSet == Elements(recentIPs);
      if |recentIPs| > MAX_RECENT_IPS {
        var oldest := recentIPs[0];
        recentIPs := recentIPs[1..];
        recentIPSet := recentIPSet - {oldest};
      }
    }

    method AddUploadTraffic(n: int)
      modifies this`UploadTraffic, this`UploadTotal
      ensures UploadTraffic == old(UploadTraffic) + n && UploadTotal == old(UploadTotal) + n
    {
      UploadTraffic := UploadTraffic + n;
      UploadTotal := UploadTotal + n;
    }

    method AddDownloadTraffic(n: int)
      modifies this`DownloadTraffic, this`DownloadTotal
      ensures DownloadTraffic == old(DownloadTraffic) + n && DownloadTotal == old(DownloadTotal) + n
    {
      DownloadTraffic := DownloadTraffic + n;
      DownloadTotal := DownloadTotal + n;
    }

    /** Hands over the cycle and starts the next one; the totals and the profile stay. */
    method SnapshotAndReset() returns (up: int, down: int, ips: seq<string>)
      requires Valid()
      modifies this`UploadTraffic, this`DownloadTraffic, this`recentIPs, this`recentIPSet
      ensures Valid() && up == old(UploadTraffic) && down == old(DownloadTraffic) && ips == old(recentIPs)
      ensures UploadTraffic == 0 && DownloadTraffic == 0 && recentIPs == []
    {
      up, UploadTraffic := UploadTraffic, 0;
      down, DownloadTraffic := DownloadTraffic, 0;
      ips := recentIPs;
      recentIPs, recentIPSet := [], {};
    }
  }
}
