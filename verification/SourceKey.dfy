/** The address a request is attributed to: the forwarded-address walk of the HTTP handler. */
module SourceKey {
  import opened Common
  import opened Text

  /** The operations of net/netip. */
  datatype Net<!A, !P> = Net(
    remote: string -> Option<A>,       // remoteAddress
    parse: string -> Option<A>,        // ParseAddr
    unmap: A -> A,
    contains: (P, A) -> bool,          // Prefix.Contains
    show: A -> string)

  predicate Trusted<A, P>(net: Net<A, P>, proxies: seq<P>, address: A) {
    exists i :: 0 <= i < |proxies| && net.contains(proxies[i], address)
  }

  method TrustedProxy<A, P>(net: Net<A, P>, proxies: seq<P>, address: A) returns (trusted: bool)
    ensures trusted == Trusted(net, proxies, address)
  {
    for i := 0 to |proxies|
      invariant forall j :: 0 <= j < i ==> !net.contains(proxies[j], address)
    {
      if net.contains(proxies[i], address) {
        return true;
      }
    }
    return false;
  }

  /** The address of one header entry, or None if it does not parse. */
  function Entry<A, P>(net: Net<A, P>, entry: string): Option<A> {
    match net.parse(Trim(entry))
    case None => None
    case Some(address) => Some(net.unmap(address))
  }

  /** The entry parses, once trimmed, and names a trusted proxy, once unmapped, so that the walk goes past it. */
  predicate Passed<A, P>(net: Net<A, P>, proxies: seq<P>, entry: string) {
    && net.parse(Trim(entry)).Some?
    && exists i :: 0 <= i < |proxies| && net.contains(proxies[i], net.unmap(net.parse(Trim(entry)).value))
  }

  /** The walk stops at this entry: everything to its right is passed and it is not. */
  predicate StopsAt<A, P>(net: Net<A, P>, proxies: seq<P>, entries: seq<string>, k: nat) {
    && k < |entries| && !Passed(net, proxies, entries[k])
    && forall j :: k < j < |entries| ==> Passed(net, proxies, entries[j])
  }

  /** The walk from the right, `candidate` being the last address passed. */
  function Walk<A, P>(net: Net<A, P>, proxies: seq<P>, entries: seq<string>, peer: A, candidate: A): A {
    if |entries| == 0 then candidate
    else
      match Entry(net, entries[|entries| - 1])
      case None => peer
      case Some(address) =>
        if Trusted(net, proxies, address) then Walk(net, proxies, entries[..|entries| - 1], peer, address) else address
  }

  /**
    sourceKey: the peer, unless it is a trusted proxy. Then it is the rightmost forwarded address that is not one; the
    peer if an entry that does not parse comes first; and the leftmost address if every one is a trusted proxy.
  */
  method Attribute<A, P>(net: Net<A, P>, proxies: seq<P>, remote: string, header: string) returns (key: string)
    ensures net.remote(remote).None? ==> key == remote
    ensures net.remote(remote).Some? ==>
      var peer := net.unmap(net.remote(remote).value);
      key == net.show(if Trusted(net, proxies, peer) then Walk(net, proxies, Split(header, ','), peer, peer) else peer)
    ensures net.remote(remote).Some? && Trusted(net, proxies, net.unmap(net.remote(remote).value)) ==>
      var peer, entries := net.unmap(net.remote(remote).value), Split(header, ',');
      && (forall k: nat :: StopsAt(net, proxies, entries, k) ==>
            key == net.show(if net.parse(Trim(entries[k])).None? then peer else net.unmap(net.parse(Trim(entries[k])).value)))
      && ((forall k :: 0 <= k < |entries| ==> Passed(net, proxies, entries[k])) ==>
            net.parse(Trim(entries[0])).Some? && key == net.show(net.unmap(net.parse(Trim(entries[0])).value)))
  {
    hide Split, Passed, StopsAt, Trim;
    match net.remote(remote) {
      case None =>
        return remote;
      case Some(address) =>
        var peer := net.unmap(address);
        var known := TrustedProxy(net, proxies, peer);
        if !known {
          return net.show(peer);
        }
        var forwarded := Split(header, ',');
        WalkEnds(net, proxies, forwarded, peer);
        var candidate, index := peer, |forwarded|;
        assert forwarded[..|forwarded|] == forwarded;
        while index > 0
          invariant 0 <= index <= |forwarded|
          invariant Walk(net, proxies, forwarded[..index], peer, candidate) == Walk(net, proxies, forwarded, peer, peer)
        {
          index := index - 1;
          assert forwarded[..index + 1][..index] == forwarded[..index];
          match net.parse(Trim(forwarded[index])) {
            case None =>
              return net.show(peer);
            case Some(entry) =>
              candidate := net.unmap(entry);
              known := TrustedProxy(net, proxies, candidate);
              if !known {
                return net.show(candidate);
              }
          }
        }
        return net.show(candidate);
    }
  }

  /**
    If everything to the right of an entry parses and is trusted, the walk reaches it: an untrusted address there
    is the answer, and an entry that does not parse yields the peer.
  */
  lemma {:induction false} FirstNotPassed<A, P>(net: Net<A, P>, proxies: seq<P>, entries: seq<string>, peer: A,
      candidate: A, k: nat)
    requires StopsAt(net, proxies, entries, k)
    ensures Walk(net, proxies, entries, peer, candidate) ==
      if net.parse(Trim(entries[k])).None? then peer else net.unmap(net.parse(Trim(entries[k])).value)
  {
    var last := entries[|entries| - 1];
    if k < |entries| - 1 {
      assert Passed(net, proxies, last);
      FirstNotPassed(net, proxies, entries[..|entries| - 1], peer, net.unmap(net.parse(Trim(last)).value), k);
    }
  }

  /** If every entry is passed, the answer is the leftmost. */
  lemma {:induction false} AllPassed<A, P>(net: Net<A, P>, proxies: seq<P>, entries: seq<string>, peer: A, candidate: A)
    requires |entries| > 0 && forall j :: 0 <= j < |entries| ==> Passed(net, proxies, entries[j])
    ensures net.parse(Trim(entries[0])).Some?
    ensures Walk(net, proxies, entries, peer, candidate) == net.unmap(net.parse(Trim(entries[0])).value)
  {
    var last := entries[|entries| - 1];
    assert Passed(net, proxies, last);
    if |entries| > 1 {
      AllPassed(net, proxies, entries[..|entries| - 1], peer, net.unmap(net.parse(Trim(last)).value));
    }
  }

  /** Where the walk ends. */
  lemma WalkEnds<A, P>(net: Net<A, P>, proxies: seq<P>, entries: seq<string>, peer: A)
    requires |entries| > 0
    ensures forall k: nat :: StopsAt(net, proxies, entries, k) ==>
      Walk(net, proxies, entries, peer, peer)
        == if net.parse(Trim(entries[k])).None? then peer else net.unmap(net.parse(Trim(entries[k])).value)
    ensures (forall k :: 0 <= k < |entries| ==> Passed(net, proxies, entries[k])) ==>
      && net.parse(Trim(entries[0])).Some?
      && Walk(net, proxies, entries, peer, peer) == net.unmap(net.parse(Trim(entries[0])).value)
  {
    forall k: nat | StopsAt(net, proxies, entries, k)
      ensures Walk(net, proxies, entries, peer, peer)
        == if net.parse(Trim(entries[k])).None? then peer else net.unmap(net.parse(Trim(entries[k])).value)
    {
      FirstNotPassed(net, proxies, entries, peer, peer, k);
    }
    if forall k :: 0 <= k < |entries| ==> Passed(net, proxies, entries[k]) {
      AllPassed(net, proxies, entries, peer, peer);
    }
  }

  /** What the right part of the header decides, nothing to its left can change. */
  lemma {:induction false} LastNotPassed<A, P>(net: Net<A, P>, proxies: seq<P>, entries: seq<string>) returns (k: nat)
    requires exists j :: 0 <= j < |entries| && !Passed(net, proxies, entries[j])
    ensures k < |entries| && !Passed(net, proxies, entries[k])
    ensures forall j :: k < j < |entries| ==> Passed(net, proxies, entries[j])
  {
    if !Passed(net, proxies, entries[|entries| - 1]) {
      k := |entries| - 1;
    } else {
      k := LastNotPassed(net, proxies, entries[..|entries| - 1]);
    }
  }

  /**
    Prepending any entries to the header never changes the answer once the header names an address that is not a
    trusted proxy, or anything that does not parse.
  */
  lemma PrefixIsIrrelevant<A, P>(net: Net<A, P>, proxies: seq<P>, more: string, header: string, peer: A)
    requires exists j :: 0 <= j < |Split(header, ',')| && !Passed(net, proxies, Split(header, ',')[j])
    ensures Walk(net, proxies, Split(more + [','] + header, ','), peer, peer)
         == Walk(net, proxies, Split(header, ','), peer, peer)
  {
    var left, right := Split(more, ','), Split(header, ',');
    SplitAppend(more, header, ',');
    var k := LastNotPassed(net, proxies, right);
    FirstNotPassed(net, proxies, right, peer, peer, k);
    FirstNotPassed(net, proxies, left + right, peer, peer, |left| + k);
  }

  /** Otherwise the prefix is walked in its turn, as if the header's leftmost address were the last one passed. */
  lemma {:induction false} PassedHeaderContinues<A, P>(
      net: Net<A, P>, proxies: seq<P>, left: seq<string>, right: seq<string>, peer: A, candidate: A)
    requires |right| > 0 && forall j :: 0 <= j < |right| ==> Passed(net, proxies, right[j])
    ensures Passed(net, proxies, right[0])
    ensures Walk(net, proxies, left + right, peer, candidate) == Walk(net, proxies, left, peer, Entry(net, right[0]).value)
  {
    var init := right[..|right| - 1];
    assert Passed(net, proxies, right[|right| - 1]);
    assert (left + right)[..|left + right| - 1] == left + init;
    if |right| > 1 {
      PassedHeaderContinues(net, proxies, left, init, peer, Entry(net, right[|right| - 1]).value);
    } else {
      assert left + init == left;
    }
  }
}

/** The scopes of an OIDC connection. */
module Scopes {
  import opened Common

  const OPENID := "openid"

  predicate Distinct(scopes: seq<string>) {
    forall i, j :: 0 <= i < j < |scopes| ==> scopes[i] != scopes[j]
  }

  /** The scopes asked for, with openid in front, trimmed. */
  function Asked(scopes: seq<string>): seq<string> { Trimmed([OPENID] + scopes) }

  function Trimmed(scopes: seq<string>): (r: seq<string>)
    ensures |r| == |scopes| && forall i :: 0 <= i < |r| ==> r[i] == Trim(scopes[i])
  {
    if |scopes| == 0 then [] else [Trim(scopes[0])] + Trimmed(scopes[1..])
  }

  /** `kept` lists each element of `all` once, in the order of first occurrence. */
  ghost predicate FirstOccurrences(all: seq<string>, kept: seq<string>) {
    && Distinct(kept)
    && (forall scope :: scope in kept <==> scope in all)
    && (forall i, j :: 0 <= i < j < |kept| ==> First(all, kept[i]) < First(all, kept[j]))
  }

  /** The position of the first occurrence; the length if there is none. */
  function First(all: seq<string>, scope: string): nat {
    if |all| == 0 || all[0] == scope then 0 else 1 + First(all[1..], scope)
  }

  lemma {:induction false} FirstIs(all: seq<string>, scope: string, k: nat)
    requires k < |all| && all[k] == scope && scope !in all[..k]
    ensures First(all, scope) == k
  {
    if k > 0 {
      assert all[0] in all[..k];
      assert all[1..][..k - 1] == all[..k][1..];
      FirstIs(all[1..], scope, k - 1);
    }
  }

  lemma {:induction false} FirstBounds(all: seq<string>, scope: string, k: nat)
    requires k <= |all| && scope in all[..k]
    ensures First(all, scope) < k
  {
    if all[0] != scope {
      assert all[..k] == [all[0]] + all[1..][..k - 1];
      FirstBounds(all[1..], scope, k - 1);
    }
  }

  /** The scopes kept of the first `i`, in the order in which each first occurs. */
  ghost predicate Kept(all: seq<string>, i: nat, kept: seq<string>) {
    && i <= |all| && Distinct(kept)
    && (forall scope :: scope in kept <==> scope in all[..i])
    && (forall a, b :: 0 <= a < b < |kept| ==> First(all, kept[a]) < First(all, kept[b]))
  }

  lemma KeepNext(all: seq<string>, i: nat, kept: seq<string>)
    requires Kept(all, i, kept) && i < |all|
    ensures Kept(all, i + 1, if all[i] in kept then kept else kept + [all[i]])
  {
    assert all[..i + 1] == all[..i] + [all[i]];
    if all[i] !in kept {
      FirstIs(all, all[i], i);
      forall a | 0 <= a < |kept| ensures First(all, kept[a]) < i {
        FirstBounds(all, kept[a], i);
      }
    }
  }

  lemma NothingKept(all: seq<string>)
    ensures Kept(all, 0, [])
  {}

  lemma KeptAll(all: seq<string>, kept: seq<string>)
    requires Kept(all, |all|, kept)
    ensures FirstOccurrences(all, kept)
  {
    assert all[..|all|] == all;
  }

  lemma OpenIDIsTrimmed()
    ensures Trim(OPENID) == OPENID
  {
    assert !Space(OPENID[0]) && !Space(OPENID[5]);
  }

  /** The loop over the scopes that were given. */
  method NormalizeGiven(scopes: seq<string>) returns (r: Option<seq<string>>)
    requires |scopes| > 0
    ensures r.None? <==> "" in Asked(scopes)
    ensures r.Some? ==> FirstOccurrences(Asked(scopes), r.value) && |r.value| > 0 && r.value[0] == OPENID
  {
    hide Trim, First, Trimmed, Kept, FirstOccurrences;
    var seen: set<string>, kept: seq<string> := {}, [];
    var asked := [OPENID] + scopes;
    ghost var all := Asked(scopes);
    OpenIDIsTrimmed();
    NothingKept(all);
    for i := 0 to |asked|
      invariant Kept(all, i, kept) && seen == Elements(kept) && "" !in all[..i]
      invariant if i == 0 then kept == [] else |kept| > 0 && kept[0] == OPENID
    {
      var scope := Trim(asked[i]);
      assert scope == all[i];
      if scope == "" {
        return None;
      }
      assert all[..i + 1] == all[..i] + [scope];
      KeepNext(all, i, kept);
      if scope !in seen {
        seen, kept := seen + {scope}, kept + [scope];
      }
    }
    KeptAll(all, kept);
    assert all[..|all|] == all;
    return Some(kept);
  }

  /**
    The scopes of normalizeConnection: openid comes first, every other scope once, in the order in which it was
    first given; an empty scope is an error.
  */
  method Normalize(scopes: seq<string>) returns (r: Option<seq<string>>)
    ensures |scopes| == 0 ==> r == Some(["openid", "email", "profile"])
    ensures r.None? <==> |scopes| > 0 && "" in Asked(scopes)
    ensures r.Some? && |scopes| > 0 ==> FirstOccurrences(Asked(scopes), r.value)
    ensures r.Some? ==> |r.value| > 0 && r.value[0] == "openid"
  {
    if |scopes| == 0 {
      return Some([OPENID, "email", "profile"]);
    }
    r := NormalizeGiven(scopes);
  }
}
