/**
 The client-address walk: which address a request is attributed to, given its TCP peer and the forwarding
 headers. A header that is absent or not readable text is `None`; `parse` is the address parser and
 `trusted` membership in the trusted networks.
 */
module ClientAddress {
  import opened Address
  import opened Text

  /** `split(',')` */
  function Split(s: string): (r: seq<string>)
    ensures r != []
  {
    if s == "" then [""]
    else if s[0] == ',' then [""] + Split(s[1..])
    else
      var rest := Split(s[1..]);
      [[s[0]] + rest[0]] + rest[1..]
  }

  /** The addresses of a header, left to right: trimmed, non-empty, parseable, normalised. */
  function Addresses(parts: seq<string>, parse: string -> Option<Ip>): seq<Ip> {
    if parts == [] then []
    else
      var text := Trim(parts[0]);
      (if text != "" && parse(text).Some? then [NormalizeIp(parse(text).value)] else []) + Addresses(parts[1..], parse)
  }

  /** The walk from the right: the last address that is not a trusted proxy. */
  function LastUntrusted(ips: seq<Ip>, trusted: Ip -> bool): Option<Ip> {
    if ips == [] then None
    else if !trusted(ips[|ips| - 1]) then Some(ips[|ips| - 1])
    else LastUntrusted(ips[..|ips| - 1], trusted)
  }

  function ForwardedClient(forwarded: Option<string>, trusted: Ip -> bool, parse: string -> Option<Ip>): Option<Ip> {
    if forwarded.None? then None else LastUntrusted(Addresses(Split(forwarded.value), parse), trusted)
  }

  function ResolveClientIp(peer: Ip, forwarded: Option<string>, realIp: Option<string>, trusted: Ip -> bool,
                           parse: string -> Option<Ip>): Ip {
    var peer' := NormalizeIp(peer);
    if !trusted(peer') then peer'
    else
      var client := ForwardedClient(forwarded, trusted, parse);
      if client.Some? then client.value
      else if realIp.Some? && parse(Trim(realIp.value)).Some? then NormalizeIp(parse(Trim(realIp.value)).value)
      else peer'
  }

  // ── Properties of the walk ─────────────────────────────────────────────────

  /** An untrusted peer is its own client, whatever the headers say. */
  lemma UntrustedPeerIsTheClient(peer: Ip, forwarded: Option<string>, realIp: Option<string>, trusted: Ip -> bool,
                                 parse: string -> Option<Ip>, forwarded': Option<string>, realIp': Option<string>)
    requires !trusted(NormalizeIp(peer))
    ensures ResolveClientIp(peer, forwarded, realIp, trusted, parse) == NormalizeIp(peer)
    ensures ResolveClientIp(peer, forwarded, realIp, trusted, parse)
         == ResolveClientIp(peer, forwarded', realIp', trusted, parse)
  {
  }

  lemma {:induction false} SplitConcat(x: string, h: string)
    ensures Split(x + "," + h) == Split(x) + Split(h)
  {
    if x == "" {
      assert "" + "," + h == "," + h;
      assert ("," + h)[1..] == h;
    } else {
      assert x + "," + h == [x[0]] + (x[1..] + "," + h);
      assert (x + "," + h)[1..] == x[1..] + "," + h;
      SplitConcat(x[1..], h);
    }
  }

  lemma {:induction false} AddressesConcat(a: seq<string>, b: seq<string>, parse: string -> Option<Ip>)
    ensures Addresses(a + b, parse) == Addresses(a, parse) + Addresses(b, parse)
  {
    if a == [] {
      assert a + b == b;
    } else {
      assert (a + b)[1..] == a[1..] + b;
      AddressesConcat(a[1..], b, parse);
    }
  }

  lemma {:induction false} LastUntrustedConcat(a: seq<Ip>, b: seq<Ip>, trusted: Ip -> bool)
    ensures LastUntrusted(a + b, trusted)
         == if LastUntrusted(b, trusted).Some? then LastUntrusted(b, trusted) else LastUntrusted(a, trusted)
  {
    if b == [] {
      assert a + b == a;
    } else {
      assert (a + b)[..|a + b| - 1] == a + b[..|b| - 1];
      LastUntrustedConcat(a, b[..|b| - 1], trusted);
    }
  }

  /** The walk finds the address that is untrusted while everything to its right is trusted. */
  lemma {:induction false} LastUntrustedIsTheLast(ips: seq<Ip>, trusted: Ip -> bool, k: nat)
    requires k < |ips| && !trusted(ips[k]) && forall i :: k < i < |ips| ==> trusted(ips[i])
    ensures LastUntrusted(ips, trusted) == Some(ips[k])
  {
    if k < |ips| - 1 {
      LastUntrustedIsTheLast(ips[..|ips| - 1], trusted, k);
    }
  }

  /** The header names `ip`: some part of it, trimmed, is an address that stands for it. */
  ghost predicate NamesAddress(header: string, ip: Ip, parse: string -> Option<Ip>) {
    exists i :: 0 <= i < |Split(header)| && NamesAt(Split(header)[i], ip, parse)
  }

  predicate NamesAt(part: string, ip: Ip, parse: string -> Option<Ip>) {
    Trim(part) != "" && parse(Trim(part)).Some? && StandsFor(parse(Trim(part)).value, ip)
  }

  lemma {:induction false} AddressesExactly(parts: seq<string>, ip: Ip, parse: string -> Option<Ip>)
    ensures ip in Addresses(parts, parse) <==> exists i :: 0 <= i < |parts| && NamesAt(parts[i], ip, parse)
  {
    if parts != [] {
      AddressesExactly(parts[1..], ip, parse);
      if parse(Trim(parts[0])).Some? {
        NormalizedStandsFor(parse(Trim(parts[0])).value);
      }
      hide NamesAt;
      assert forall i :: 1 <= i < |parts| ==> parts[i] == parts[1..][i - 1];
    }
  }

  lemma {:induction false} AllTrusted(ips: seq<Ip>, trusted: Ip -> bool)
    requires forall ip :: ip in ips ==> trusted(ip)
    ensures LastUntrusted(ips, trusted) == None
  {
    if ips != [] {
      AllTrusted(ips[..|ips| - 1], trusted);
    }
  }

  /** From a trusted peer whose forwarded header is absent, or names trusted addresses alone, the request is attributed to
      what its X-Real-IP, trimmed, parses to, and to the peer if that does not parse. */
  lemma RealIpDecides(peer: Ip, client: Ip, forwarded: Option<string>, realIp: Option<string>, trusted: Ip -> bool,
                      parse: string -> Option<Ip>)
    requires StandsFor(peer, client) && trusted(client)
    requires forwarded.Some? ==> forall ip :: NamesAddress(forwarded.value, ip, parse) ==> trusted(ip)
    ensures realIp.Some? && parse(Trim(realIp.value)).Some? ==>
              StandsFor(parse(Trim(realIp.value)).value, ResolveClientIp(peer, forwarded, realIp, trusted, parse))
    ensures realIp.None? || parse(Trim(realIp.value)).None? ==>
              ResolveClientIp(peer, forwarded, realIp, trusted, parse) == client
  {
    hide Addresses, Split, LastUntrusted;
    NormalizedStandsFor(peer);
    if forwarded.Some? {
      var parts := Split(forwarded.value);
      forall ip | ip in Addresses(parts, parse) ensures trusted(ip) {
        AddressesExactly(parts, ip, parse);
        assert NamesAddress(forwarded.value, ip, parse);
      }
      AllTrusted(Addresses(parts, parse), trusted);
    }
    if realIp.Some? && parse(Trim(realIp.value)).Some? {
      NormalizedStandsFor(parse(Trim(realIp.value)).value);
    }
  }

  /** From a trusted peer whose forwarded header names an untrusted address, the request is attributed to one it names
      that is untrusted, and X-Real-IP changes nothing. */
  lemma ForwardedDecides(peer: Ip, client: Ip, forwarded: string, realIp: Option<string>, realIp': Option<string>,
                         trusted: Ip -> bool, parse: string -> Option<Ip>)
    requires StandsFor(peer, client) && trusted(client)
    requires exists ip :: NamesAddress(forwarded, ip, parse) && !trusted(ip)
    ensures ResolveClientIp(peer, Some(forwarded), realIp, trusted, parse)
         == ResolveClientIp(peer, Some(forwarded), realIp', trusted, parse)
    ensures var ip := ResolveClientIp(peer, Some(forwarded), realIp, trusted, parse);
            NamesAddress(forwarded, ip, parse) && !trusted(ip)
  {
    hide Addresses, Split, LastUntrusted;
    NormalizedStandsFor(peer);
    var parts := Split(forwarded);
    var ips := Addresses(parts, parse);
    var ip :| NamesAddress(forwarded, ip, parse) && !trusted(ip);
    AddressesExactly(parts, ip, parse);
    SomeUntrusted(ips, trusted);
    LastIsOne(ips, trusted);
    AddressesExactly(parts, LastUntrusted(ips, trusted).value, parse);
  }

  lemma {:induction false} LastIsOne(ips: seq<Ip>, trusted: Ip -> bool)
    requires LastUntrusted(ips, trusted).Some?
    ensures LastUntrusted(ips, trusted).value in ips && !trusted(LastUntrusted(ips, trusted).value)
  {
    if trusted(ips[|ips| - 1]) {
      LastIsOne(ips[..|ips| - 1], trusted);
    }
  }

  /** Once a header names an untrusted address, no text put in front of it changes the result. */
  lemma PrependingChangesNothing(x: string, header: string, peer: Ip, realIp: Option<string>, trusted: Ip -> bool,
                                 parse: string -> Option<Ip>)
    requires exists ip :: ip in Addresses(Split(header), parse) && !trusted(ip)
    ensures ResolveClientIp(peer, Some(x + "," + header), realIp, trusted, parse)
         == ResolveClientIp(peer, Some(header), realIp, trusted, parse)
  {
    var ips := Addresses(Split(header), parse);
    SplitConcat(x, header);
    AddressesConcat(Split(x), Split(header), parse);
    LastUntrustedConcat(Addresses(Split(x), parse), ips, trusted);
    SomeUntrusted(ips, trusted);
  }

  lemma {:induction false} SomeUntrusted(ips: seq<Ip>, trusted: Ip -> bool)
    requires exists ip :: ip in ips && !trusted(ip)
    ensures LastUntrusted(ips, trusted).Some?
  {
    if trusted(ips[|ips| - 1]) {
      var ip :| ip in ips && !trusted(ip);
      assert ip in ips[..|ips| - 1];
      SomeUntrusted(ips[..|ips| - 1], trusted);
    }
  }

  // ── Chains of proxies ──────────────────────────────────────────────────────

  /** An address written into a header can be read back from it. */
  ghost predicate WellRendered(render: Ip -> string, parse: string -> Option<Ip>) {
    forall ip :: render(ip) != "" && ',' !in render(ip) && Trim(render(ip)) == render(ip) && parse(render(ip)) == Some(ip)
  }

  /** A proxy appends the address it saw. */
  function Append(header: Option<string>, seen: Ip, render: Ip -> string): string {
    if header.None? then render(seen) else header.value + "," + (" " + render(seen))
  }

  /** The header after the request has passed `proxies`, each appending the address before it. */
  function Forwarded(header: Option<string>, client: Ip, proxies: seq<Ip>, render: Ip -> string): Option<string> {
    if proxies == [] then header
    else
      var n := |proxies| - 1;
      Some(Append(Forwarded(header, client, proxies[..n], render), Hop(client, proxies[..n]), render))
  }

  /** The last machine of the chain so far. */
  function Hop(client: Ip, proxies: seq<Ip>): Ip {
    if proxies == [] then client else proxies[|proxies| - 1]
  }

  lemma {:induction false} SplitWithoutComma(s: string)
    requires ',' !in s
    ensures Split(s) == [s]
  {
    if s != "" {
      assert s[0] in s && forall c :: c in s[1..] ==> c in s;
      SplitWithoutComma(s[1..]);
      assert [s[0]] + s[1..] == s;
    }
  }

  lemma TrimAfterBlank(s: string)
    ensures Trim(" " + s) == Trim(s)
  {
    var t := " " + s;
    assert t[0] == ' ' && IsWhitespace(' ');
    assert t[1..] == s;
    assert TrimStart(t) == TrimStart(s);
  }

  lemma OneAddress(text: string, seen: Ip, render: Ip -> string, parse: string -> Option<Ip>)
    requires WellRendered(render, parse) && (text == render(seen) || text == " " + render(seen))
    ensures Addresses(Split(text), parse) == [NormalizeIp(seen)]
  {
    SplitWithoutComma(text);
    TrimAfterBlank(render(seen));
    assert Addresses([text][1..], parse) == [];
  }

  /** What a header says after one more hop. */
  lemma AppendAddresses(header: Option<string>, seen: Ip, render: Ip -> string, parse: string -> Option<Ip>)
    requires WellRendered(render, parse)
    ensures Addresses(Split(Append(header, seen, render)), parse)
         == (if header.None? then [] else Addresses(Split(header.value), parse)) + [NormalizeIp(seen)]
  {
    OneAddress(render(seen), seen, render, parse);
    OneAddress(" " + render(seen), seen, render, parse);
    if header.Some? {
      SplitConcat(header.value, " " + render(seen));
      AddressesConcat(Split(header.value), Split(" " + render(seen)), parse);
    }
  }

  /** What the text the client itself sent says. */
  function Hearsay(header: Option<string>, parse: string -> Option<Ip>): seq<Ip> {
    if header.None? then [] else Addresses(Split(header.value), parse)
  }

  /** The addresses the proxies saw: the client, then every proxy but the last. */
  function Seen(client: Ip, proxies: seq<Ip>): seq<Ip> {
    if proxies == [] then []
    else
      var front := proxies[..|proxies| - 1];
      Seen(client, front) + [NormalizeIp(Hop(client, front))]
  }

  lemma {:induction false} ForwardedAddresses(header: Option<string>, client: Ip, proxies: seq<Ip>,
                                              render: Ip -> string, parse: string -> Option<Ip>)
    requires WellRendered(render, parse)
    ensures Hearsay(Forwarded(header, client, proxies, render), parse) == Hearsay(header, parse) + Seen(client, proxies)
  {
    hide WellRendered, Addresses, Split, Append;
    if proxies == [] {
      assert Hearsay(header, parse) + [] == Hearsay(header, parse);
    } else {
      var front := proxies[..|proxies| - 1];
      var sent := Forwarded(header, client, front, render);
      AppendAddresses(sent, Hop(client, front), render, parse);
      ForwardedAddresses(header, client, front, render, parse);
      assert Hearsay(header, parse) + Seen(client, front) + [NormalizeIp(Hop(client, front))]
          == Hearsay(header, parse) + Seen(client, proxies);
    }
  }

  /** With every proxy but the last trusted, the walk over what they saw ends at the client. */
  lemma {:induction false} SeenEndsAtTheClient(client: Ip, proxies: seq<Ip>, trusted: Ip -> bool)
    requires proxies != [] && !trusted(NormalizeIp(client))
    requires forall p :: p in proxies ==> trusted(NormalizeIp(p))
    ensures LastUntrusted(Seen(client, proxies), trusted) == Some(NormalizeIp(client))
  {
    var front := proxies[..|proxies| - 1];
    var seen := Seen(client, proxies);
    assert seen[..|seen| - 1] == Seen(client, front);
    if front != [] {
      assert Hop(client, front) in proxies;
      SeenEndsAtTheClient(client, front, trusted);
    }
  }

  /** Through any number of trusted proxies, an untrusted client is resolved to its own address, whatever
      headers it sent. */
  lemma ChainResolvesToTheClient(header: Option<string>, realIp: Option<string>, client: Ip, proxies: seq<Ip>,
                                 trusted: Ip -> bool, render: Ip -> string, parse: string -> Option<Ip>)
    requires WellRendered(render, parse) && !trusted(NormalizeIp(client))
    requires forall p :: p in proxies ==> trusted(NormalizeIp(p))
    ensures ResolveClientIp(Hop(client, proxies), Forwarded(header, client, proxies, render), realIp, trusted, parse)
         == NormalizeIp(client)
  {
    hide WellRendered, Addresses, Split, Append, LastUntrusted, Seen;
    if proxies != [] {
      ForwardedAddresses(header, client, proxies, render, parse);
      SeenEndsAtTheClient(client, proxies, trusted);
      LastUntrustedConcat(Hearsay(header, parse), Seen(client, proxies), trusted);
      assert Hop(client, proxies) in proxies;
    }
  }
}
