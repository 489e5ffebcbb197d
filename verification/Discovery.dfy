// discovery/discovery.go: the deterministic choice of coordinator candidates
// from mDNS answers.

module Discovery {
  import opened Basics
  import opened Sorting

  const SERVICE := "._fallow._tcp.local."
  const SITE_KEY := "site_id="
  const MAX_CANDIDATES := 8

  // An address is its bytes: 4, 16, or anything else for a malformed one.
  datatype Entry = Entry(name: string, addrV4: Bytes, addrV6: Bytes, port: int, txt: seq<string>)

  // An endpoint keeps the 16-byte form, so the two spellings of an IPv4
  // address are one address, as they are in the source's textual key.
  datatype Endpoint = Endpoint(ip: Bytes, port: int)

  const V4_PREFIX: Bytes := [0, 0, 0, 0, 0, 0, 0, 0, 0, 0, 255, 255]

  // net.IP.To16; a malformed address has none.
  function To16(ip: Bytes): Bytes {
    if |ip| == 4 then V4_PREFIX + ip else if |ip| == 16 then ip else []
  }

  predicate IsV4(ip16: Bytes) {
    |ip16| == 16 && ip16[..12] == V4_PREFIX
  }

  predicate Usable(ip: Bytes) {
    var a := To16(ip);
    && |a| == 16
    && a != V4_PREFIX + [0, 0, 0, 0]
    && a != seq(16, _ => 0)
    && (if IsV4(a) then !(224 <= a[12] < 240)                          // multicast
        else a[0] != 255 && !(a[0] == 254 && 128 <= a[1] < 192))       // multicast, link-local
  }

  function ToLower(s: string): (r: string)
    ensures |r| == |s|
  {
    seq(|s|, i requires 0 <= i < |s| => if 'A' <= s[i] <= 'Z' then (s[i] as int + 32) as char else s[i])
  }

  // Capital letters become the small ones; nothing else changes.
  lemma LowerMeans(s: string, i: nat)
    requires i < |s|
    ensures 'A' <= s[i] <= 'Z' ==> 'a' <= ToLower(s)[i] <= 'z' && ToLower(s)[i] - 'a' == s[i] - 'A'
    ensures !('A' <= s[i] <= 'Z') ==> ToLower(s)[i] == s[i]
  {
  }

  predicate HasSuffix(s: string, suffix: string) {
    |s| >= |suffix| && s[|s| - |suffix|..] == suffix
  }

  function SiteValues(txt: seq<string>): seq<string> {
    if txt == [] then []
    else
      (if SITE_KEY <= txt[0] then [txt[0][|SITE_KEY|..]] else []) + SiteValues(txt[1..])
  }

  // In the service, and carrying exactly one site value, this one.
  predicate ServesSite(e: Entry, siteId: string) {
    HasSuffix(ToLower(e.name), SERVICE) && SiteValues(e.txt) == [siteId]
  }

  // ---- The order of candidates ----

  predicate ByteLess(a: byte, b: byte) {
    a < b
  }

  // IPv4 first, then address bytes, then port.
  predicate Less(a: Endpoint, b: Endpoint) {
    if IsV4(a.ip) != IsV4(b.ip) then IsV4(a.ip)
    else if a.ip != b.ip then Lex(a.ip, b.ip, ByteLess)
    else a.port < b.port
  }

  lemma LessIsOrder()
    ensures StrictTotalOrder(Less)
  {
    assert StrictTotalOrder(ByteLess);
    forall a: Endpoint, b: Endpoint
      ensures a == b || Less(a, b) || Less(b, a)
    {
      LexTotal(a.ip, b.ip, ByteLess);
    }
    forall a: Endpoint, b: Endpoint, c: Endpoint | Less(a, b) && Less(b, c)
      ensures Less(a, c)
    {
      LessTransitive(a, b, c);
    }
  }

  lemma LessTransitive(a: Endpoint, b: Endpoint, c: Endpoint)
    requires StrictTotalOrder(ByteLess) && Less(a, b) && Less(b, c)
    ensures Less(a, c)
  {
    if a.ip != b.ip && b.ip != c.ip && IsV4(a.ip) == IsV4(b.ip) == IsV4(c.ip) {
      LexTransitive(a.ip, b.ip, c.ip, ByteLess);
      LexIrreflexive(a.ip, ByteLess);
    }
  }

  // Address bytes decide at the first difference, IPv4 comes before IPv6, and
  // the port decides between equal addresses.
  lemma LessMeans(a: Endpoint, b: Endpoint, i: nat)
    ensures IsV4(a.ip) && !IsV4(b.ip) ==> Less(a, b) && !Less(b, a)
    ensures IsV4(a.ip) == IsV4(b.ip) && i < |a.ip| && i < |b.ip| && a.ip[..i] == b.ip[..i] && a.ip[i] < b.ip[i] ==>
      Less(a, b) && !Less(b, a)
    ensures a.ip == b.ip ==> (Less(a, b) <==> a.port < b.port)
  {
    if i < |a.ip| && i < |b.ip| && a.ip[..i] == b.ip[..i] && a.ip[i] < b.ip[i] {
      LexAtDifference(a.ip, b.ip, i);
    }
  }

  lemma {:induction false} LexAtDifference(a: Bytes, b: Bytes, i: nat)
    requires i < |a| && i < |b| && a[..i] == b[..i] && a[i] < b[i]
    ensures Lex(a, b, ByteLess) && !Lex(b, a, ByteLess)
  {
    if i > 0 {
      assert a[0] == a[..i][0] == b[..i][0] == b[0];
      assert a[1..][..i - 1] == a[..i][1..] == b[..i][1..] == b[1..][..i - 1];
      LexAtDifference(a[1..], b[1..], i - 1);
    }
  }

  // ---- Which addresses and answers count ----

  // IPv4, as four bytes or mapped into sixteen: not unspecified, not multicast.
  // Loopback and link-local addresses count.
  lemma UsableV4(ip: Bytes)
    requires |ip| == 4
    ensures Usable(ip) <==> ip != [0, 0, 0, 0] && !(224 <= ip[0] <= 239)
    ensures Usable([0, 0, 0, 0, 0, 0, 0, 0, 0, 0, 255, 255] + ip) <==> Usable(ip)
  {
    var a := V4_PREFIX + ip;
    assert a[..12] == V4_PREFIX && a[12..] == ip && a[12] == ip[0];
    assert a == V4_PREFIX + [0, 0, 0, 0] <==> ip == [0, 0, 0, 0];
    assert a[10] == 255;
  }

  // IPv6: not unspecified, not multicast (first byte 255), not link-local
  // (fe80 with a prefix of ten bits).
  lemma UsableV6(ip: Bytes)
    requires |ip| == 16 && ip[..12] != [0, 0, 0, 0, 0, 0, 0, 0, 0, 0, 255, 255]
    ensures Usable(ip)
       <==> (exists i :: 0 <= i < 16 && ip[i] != 0) && ip[0] != 0xFF && !(ip[0] == 0xFE && 0x80 <= ip[1] <= 0xBF)
  {
    assert (V4_PREFIX + [0, 0, 0, 0])[..12] == V4_PREFIX;
    var zero: Bytes := seq(16, _ => 0);
    if ip == zero {
      assert forall i :: 0 <= i < 16 ==> ip[i] == zero[i];
    }
  }

  lemma MalformedIsUnusable(ip: Bytes)
    requires |ip| != 4 && |ip| != 16
    ensures !Usable(ip)
  {
  }

  lemma {:induction false} SiteValuesMeans(txt: seq<string>, siteId: string)
    ensures SiteValues(txt) == [] <==> forall i :: 0 <= i < |txt| ==> !("site_id=" <= txt[i])
    ensures SiteValues(txt) == [siteId]
       <==> exists i :: 0 <= i < |txt| && txt[i] == "site_id=" + siteId && OnlySite(txt, i)
  {
    if txt != [] {
      var rest := txt[1..];
      SiteValuesMeans(rest, siteId);
      var first := "site_id=" <= txt[0];
      if first {
        assert SiteValues(txt) == [txt[0][8..]] + SiteValues(rest);
        assert txt[0] == "site_id=" + txt[0][8..];
        if SiteValues(txt) == [siteId] {
          assert txt[0][8..] == SiteValues(txt)[0] == siteId && |SiteValues(rest)| == 0;
          assert OnlySite(txt, 0);
        }
        if i :| 0 <= i < |txt| && txt[i] == "site_id=" + siteId && OnlySite(txt, i) {
          assert i == 0;
          assert forall j :: 0 <= j < |rest| ==> rest[j] == txt[j + 1];
        }
      } else {
        if SiteValues(txt) == [siteId] {
          var i :| 0 <= i < |rest| && rest[i] == "site_id=" + siteId && OnlySite(rest, i);
          assert txt[i + 1] == rest[i] && OnlySite(txt, i + 1);
        }
        if i :| 0 <= i < |txt| && txt[i] == "site_id=" + siteId && OnlySite(txt, i) {
          assert "site_id=" <= txt[i];
          assert rest[i - 1] == txt[i] && OnlySite(rest, i - 1);
        }
      }
    }
  }

  // Field i is the only one with the site key.
  ghost predicate OnlySite(txt: seq<string>, i: int) {
    forall j :: 0 <= j < |txt| && j != i ==> !("site_id=" <= txt[j])
  }

  // An answer counts exactly if its name, in lower case, ends in the service
  // and exactly one of its TXT fields carries the site key, with this site.
  lemma ServesSiteExactly(e: Entry, siteId: string)
    ensures ServesSite(e, siteId)
       <==> (exists prefix :: ToLower(e.name) == prefix + "._fallow._tcp.local.")
            && exists i :: 0 <= i < |e.txt| && e.txt[i] == "site_id=" + siteId && OnlySite(e.txt, i)
  {
    SiteValuesMeans(e.txt, siteId);
    var name, service := ToLower(e.name), "._fallow._tcp.local.";
    if HasSuffix(name, service) {
      assert name == name[..|name| - |service|] + service;
    }
  }

  // ---- What the answers offer, and the selection ----

  predicate Offers(e: Entry, siteId: string, ep: Endpoint) {
    && ServesSite(e, siteId) && 1 <= e.port <= 65535 && ep.port == e.port
    && ((Usable(e.addrV4) && ep.ip == To16(e.addrV4)) || (Usable(e.addrV6) && ep.ip == To16(e.addrV6)))
  }

  ghost predicate Offered(entries: seq<Entry>, siteId: string, ep: Endpoint) {
    exists e :: e in entries && Offers(e, siteId, ep)
  }

  // An answer for this site with a port from 1 to 65535 offers each of its
  // usable addresses at that port, and nothing else does.
  lemma OffersMeans(e: Entry, siteId: string, ip: Bytes, port: int)
    ensures ServesSite(e, siteId) && 1 <= port == e.port <= 65535 && Usable(ip) && (ip == e.addrV4 || ip == e.addrV6) ==>
      Offers(e, siteId, Endpoint(To16(ip), port))
    ensures Offers(e, siteId, Endpoint(ip, port)) ==>
      && ServesSite(e, siteId) && 1 <= port == e.port <= 65535
      && exists addr | addr in [e.addrV4, e.addrV6] :: Usable(addr) && ip == To16(addr)
    ensures |ip| == 16 ==> To16(ip) == ip
    ensures |ip| == 4 ==> To16(ip) == [0, 0, 0, 0, 0, 0, 0, 0, 0, 0, 255, 255] + ip
  {
    assert [e.addrV4, e.addrV6][0] == e.addrV4 && [e.addrV4, e.addrV6][1] == e.addrV6;
  }

  function Capped(eps: seq<Endpoint>): seq<Endpoint> {
    if |eps| > MAX_CANDIDATES then eps[..MAX_CANDIDATES] else eps
  }

  // The strictly sorted list of everything the answers offer.
  ghost predicate ListsOffers(all: seq<Endpoint>, entries: seq<Entry>, siteId: string) {
    Sorted(all, Less) && forall ep :: ep in all <==> Offered(entries, siteId, ep)
  }

  ghost predicate IsSelection(out: seq<Endpoint>, entries: seq<Entry>, siteId: string) {
    exists all :: ListsOffers(all, entries, siteId) && out == Capped(all)
  }

  method SelectOrigins(entries: seq<Entry>, siteId: string) returns (out: seq<Endpoint>)
    ensures IsSelection(out, entries, siteId)
  {
    var eps: seq<Endpoint> := [];
    for i := 0 to |entries|
      invariant Distinct(eps) && forall ep :: ep in eps <==> Offered(entries[..i], siteId, ep)
    {
      var e := entries[i];
      assert entries[..i + 1] == entries[..i] + [e];
      ghost var before := eps;
      if ServesSite(e, siteId) && 1 <= e.port <= 65535 {
        eps := AddAddress(eps, e.addrV4, e.port);
        eps := AddAddress(eps, e.addrV6, e.port);
      }
      forall ep
        ensures ep in eps <==> Offered(entries[..i + 1], siteId, ep)
      {
        OfferedOneMore(entries[..i], e, siteId, ep);
      }
    }
    assert entries[..|entries|] == entries;
    LessIsOrder();
    SortSorts(eps, Less);
    out := Capped(Sort(eps, Less));
    assert ListsOffers(Sort(eps, Less), entries, siteId);
  }

  // Adds a usable address unless it has been seen.
  method AddAddress(eps: seq<Endpoint>, ip: Bytes, port: int) returns (more: seq<Endpoint>)
    requires Distinct(eps)
    ensures Distinct(more)
    ensures forall ep :: ep in more <==> ep in eps || (Usable(ip) && ep == Endpoint(To16(ip), port))
  {
    if !Usable(ip) || Endpoint(To16(ip), port) in eps {
      return eps;
    }
    return eps + [Endpoint(To16(ip), port)];
  }

  lemma OfferedOneMore(entries: seq<Entry>, e: Entry, siteId: string, ep: Endpoint)
    ensures Offered(entries + [e], siteId, ep) <==> Offered(entries, siteId, ep) || Offers(e, siteId, ep)
  {
    assert e in entries + [e];
    if Offered(entries, siteId, ep) {
      var x :| x in entries && Offers(x, siteId, ep);
      assert x in entries + [e];
    }
  }

  // The list depends only on which answers arrived, not on their order or
  // number.
  lemma SelectionIgnoresOrder(entries: seq<Entry>, entries': seq<Entry>, siteId: string, out: seq<Endpoint>, out': seq<Endpoint>)
    requires IsSelection(out, entries, siteId) && IsSelection(out', entries', siteId)
    requires forall e :: e in entries <==> e in entries'
    ensures out == out'
  {
    var all :| ListsOffers(all, entries, siteId) && out == Capped(all);
    var all' :| ListsOffers(all', entries', siteId) && out' == Capped(all');
    LessIsOrder();
    SortedIsUnique(all, all', Less);
  }

  // It holds at most eight endpoints, strictly sorted, all of them offered;
  // an endpoint left out is larger than the eight that were kept.
  lemma SelectionIsSmallest(entries: seq<Entry>, siteId: string, out: seq<Endpoint>, ep: Endpoint)
    requires IsSelection(out, entries, siteId)
    ensures |out| <= 8 && Sorted(out, Less)
    ensures ep in out ==> Offered(entries, siteId, ep)
    ensures Offered(entries, siteId, ep) && ep !in out ==> |out| == 8 && forall x | x in out :: Less(x, ep)
  {
    var all :| ListsOffers(all, entries, siteId) && out == Capped(all);
    if Offered(entries, siteId, ep) && ep !in out {
      var i :| 0 <= i < |all| && all[i] == ep;
      assert forall j :: 0 <= j < |out| ==> out[j] == all[j] && out[j] in out;
    }
  }
}
