/** Who a request came from (crates/api/src/client.rs:22-58). Trimming and parsing one entry is the parameter
    `read`; the header map is the two headers the code asks for. */
module Client {
  import opened Wrappers
  import opened Net

  /** A header's first value: `Unreadable` is one that is present and not visible ASCII. */
  datatype Header = Absent | Unreadable | Text(text: string)

  datatype Headers = Headers(forwardedFor: Header, realIp: Header)

  /** `str::split(',')`: one entry more than there are commas. */
  function Split(s: string): (entries: seq<string>)
    ensures entries != []
  {
    if s == "" then [""]
    else if s[0] == ',' then [""] + Split(s[1..])
    else OntoFirst(s[0], Split(s[1..]))
  }

  function OntoFirst(c: char, entries: seq<string>): (longer: seq<string>)
    requires entries != []
    ensures longer != []
  {
    [[c] + entries[0]] + entries[1..]
  }

  /** The entries that are addresses, right to left. */
  function ReadableFromTheRight(entries: seq<string>, read: string -> Option<Addr>): seq<Addr> {
    if entries == [] then []
    else
      var last := |entries| - 1;
      Reading(read(entries[last])) + ReadableFromTheRight(entries[..last], read)
  }

  /** `filter_map` on one entry. */
  function Reading(a: Option<Addr>): seq<Addr> {
    if a.Some? then [a.value] else []
  }

  /** A forwarded-for header that is present hides the other one, even when it cannot be read. */
  function Chosen(headers: Headers): Header {
    if headers.forwardedFor.Absent? then headers.realIp else headers.forwardedFor
  }

  function Forwarded(headers: Headers, read: string -> Option<Addr>): seq<Addr> {
    match Chosen(headers)
    case Text(raw) => ReadableFromTheRight(Split(raw), read)
    case _ => []
  }

  predicate Block(nets: seq<TrustedNet>) {
    forall net :: net in nets ==> ValidNet(net)
  }

  function FirstUntrusted(nets: seq<TrustedNet>, chain: seq<Addr>): Option<Addr>
    requires Block(nets)
  {
    if chain == [] then None
    else if !Trusts(nets, chain[0]) then Some(chain[0])
    else FirstUntrusted(nets, chain[1..])
  }

  /** `address`. */
  function Address(nets: seq<TrustedNet>, peer: Option<Addr>, headers: Headers, read: string -> Option<Addr>): Option<Addr>
    requires Block(nets)
  {
    match peer
    case None => None
    case Some(p) =>
      if !Trusts(nets, p) then Some(p)
      else
        match FirstUntrusted(nets, Forwarded(headers, read))
        case Some(a) => Some(a)
        case None => Some(p)
  }

  // ---------- The rightmost untrusted entry ----------

  /** Entry `i` is an address outside the trusted blocks. */
  ghost predicate Outsider(nets: seq<TrustedNet>, entries: seq<string>, read: string -> Option<Addr>, i: int)
    requires Block(nets)
  {
    0 <= i < |entries| && read(entries[i]).Some? && !Trusts(nets, read(entries[i]).value)
  }

  ghost predicate HasOutsider(nets: seq<TrustedNet>, entries: seq<string>, read: string -> Option<Addr>)
    requires Block(nets)
  {
    exists i :: Outsider(nets, entries, read, i)
  }

  ghost predicate LastOutsider(nets: seq<TrustedNet>, entries: seq<string>, read: string -> Option<Addr>, i: int)
    requires Block(nets)
  {
    Outsider(nets, entries, read, i) && forall j | i < j :: !Outsider(nets, entries, read, j)
  }

  lemma {:induction false} FirstOfJoined(nets: seq<TrustedNet>, a: seq<Addr>, b: seq<Addr>)
    requires Block(nets)
    ensures FirstUntrusted(nets, a + b) ==
            if FirstUntrusted(nets, a).Some? then FirstUntrusted(nets, a) else FirstUntrusted(nets, b)
  {
    if a == [] {
      assert a + b == b;
    } else {
      assert (a + b)[1..] == a[1..] + b;
      FirstOfJoined(nets, a[1..], b);
    }
  }

  lemma FirstOfReading(nets: seq<TrustedNet>, a: Option<Addr>)
    requires Block(nets)
    ensures FirstUntrusted(nets, Reading(a)) == if a.Some? && !Trusts(nets, a.value) then a else None
  {
    assert a.Some? ==> Reading(a)[1..] == [];
  }

  /** Where the search stops, or -1. */
  lemma {:induction false} SearchStopsAt(nets: seq<TrustedNet>, entries: seq<string>, read: string -> Option<Addr>)
    returns (i: int)
    requires Block(nets)
    ensures var found := FirstUntrusted(nets, ReadableFromTheRight(entries, read));
            if found.None? then i == -1 && !HasOutsider(nets, entries, read)
            else LastOutsider(nets, entries, read, i) && found == read(entries[i])
  {
    i := -1;
    if entries != [] {
      var last := |entries| - 1;
      var a := read(entries[last]);
      FirstOfReading(nets, a);
      FirstOfJoined(nets, Reading(a), ReadableFromTheRight(entries[..last], read));
      if Outsider(nets, entries, read, last) {
        i := last;
      } else {
        i := SearchStopsAt(nets, entries[..last], read);
        OutsidersBefore(nets, entries, read);
      }
    }
  }

  lemma OutsidersBefore(nets: seq<TrustedNet>, entries: seq<string>, read: string -> Option<Addr>)
    requires Block(nets) && entries != []
    ensures forall j | j != |entries| - 1 ::
              Outsider(nets, entries, read, j) == Outsider(nets, entries[..|entries| - 1], read, j)
  {}

  lemma OneLastOutsider(nets: seq<TrustedNet>, entries: seq<string>, read: string -> Option<Addr>, i: int, j: int)
    requires Block(nets) && LastOutsider(nets, entries, read, i) && LastOutsider(nets, entries, read, j)
    ensures i == j
  {}

  /** The search finds the last outsider, and nothing exactly when there is none. */
  lemma SearchFindsTheLastOutsider(nets: seq<TrustedNet>, entries: seq<string>, read: string -> Option<Addr>)
    requires Block(nets)
    ensures var found := FirstUntrusted(nets, ReadableFromTheRight(entries, read));
            && (found.Some? <==> HasOutsider(nets, entries, read))
            && (forall i | LastOutsider(nets, entries, read, i) :: found == read(entries[i]))
            && (found.Some? ==> exists i :: LastOutsider(nets, entries, read, i))
  {
    var k := SearchStopsAt(nets, entries, read);
    forall i | LastOutsider(nets, entries, read, i) && k != -1 ensures i == k {
      OneLastOutsider(nets, entries, read, i, k);
    }
  }

  /** X-Real-IP is read when there is no forwarded-for header, and only then: one that is there hides it, readable or
      not. */
  lemma RealIpIsTheFallback(nets: seq<TrustedNet>, peer: Option<Addr>, xff: Header, realIp: Header, read: string -> Option<Addr>)
    requires Block(nets)
    ensures Address(nets, peer, Headers(Absent, realIp), read) == Address(nets, peer, Headers(realIp, Absent), read)
    ensures !xff.Absent? ==> Address(nets, peer, Headers(xff, realIp), read) == Address(nets, peer, Headers(xff, Absent), read)
    ensures peer.Some? ==> Address(nets, peer, Headers(Unreadable, realIp), read) == peer
    ensures peer.Some? && Trusts(nets, peer.value) ==>
              forall text, a :: realIp == Text(text) && Split(text) == [text] && read(text) == Some(a) && !Trusts(nets, a) ==>
                Address(nets, peer, Headers(Absent, realIp), read) == Some(a)
  {
    forall text, a | realIp == Text(text) && Split(text) == [text] && read(text) == Some(a) && !Trusts(nets, a)
      ensures FirstUntrusted(nets, Forwarded(Headers(Absent, realIp), read)) == Some(a)
    {
      assert [text][..0] == [];
      assert ReadableFromTheRight([text], read) == [a];
    }
  }

  /** With a trusted peer and a readable header, the answer is the rightmost untrusted entry, and the peer when
      there is none. With an untrusted peer no header has any effect, and without a peer there is no address. */
  lemma AddressIsTheLastOutsider(nets: seq<TrustedNet>, peer: Addr, headers: Headers, other: Headers, read: string -> Option<Addr>)
    requires Block(nets)
    ensures Address(nets, None, headers, read) == None
    ensures !Trusts(nets, peer) ==>
              Address(nets, Some(peer), headers, read) == Address(nets, Some(peer), other, read) == Some(peer)
    ensures Trusts(nets, peer) && Chosen(headers).Text? ==>
              var entries := Split(Chosen(headers).text);
              var answer := Address(nets, Some(peer), headers, read);
              && (forall i | LastOutsider(nets, entries, read, i) :: answer == read(entries[i]))
              && (HasOutsider(nets, entries, read) ==> exists i :: LastOutsider(nets, entries, read, i))
              && (!HasOutsider(nets, entries, read) <==> answer == Some(peer))
  {
    if Trusts(nets, peer) && Chosen(headers).Text? {
      var entries := Split(Chosen(headers).text);
      SearchFindsTheLastOutsider(nets, entries, read);
    }
  }

  // ---------- What stands to the left ----------

  lemma {:induction false} SplitOfJoined(p: string, h: string)
    ensures Split(p + "," + h) == Split(p) + Split(h)
  {
    var whole := p + "," + h;
    if p == "" {
      assert whole[0] == ',' && whole[1..] == h;
    } else {
      SplitOfJoined(p[1..], h);
      assert whole[0] == p[0] && whole[1..] == p[1..] + "," + h;
      if p[0] == ',' {
        assert [""] + (Split(p[1..]) + Split(h)) == [""] + Split(p[1..]) + Split(h);
      } else {
        OntoFirstOfJoined(p[0], Split(p[1..]), Split(h));
      }
    }
  }

  lemma OntoFirstOfJoined(c: char, left: seq<string>, right: seq<string>)
    requires left != []
    ensures OntoFirst(c, left + right) == OntoFirst(c, left) + right
  {
    assert (left + right)[1..] == left[1..] + right;
  }

  lemma {:induction false} SplitWithoutComma(s: string)
    requires ',' !in s
    ensures Split(s) == [s]
  {
    if s != "" {
      SplitWithoutComma(s[1..]);
      assert [s[0]] + s[1..] == s;
    }
  }

  lemma ReadableOfAppended(entries: seq<string>, entry: string, read: string -> Option<Addr>)
    ensures ReadableFromTheRight(entries + [entry], read) == Reading(read(entry)) + ReadableFromTheRight(entries, read)
  {
    var whole := entries + [entry];
    assert whole[..|whole| - 1] == entries;
  }

  lemma {:induction false} ReadableOfJoined(left: seq<string>, right: seq<string>, read: string -> Option<Addr>)
    ensures ReadableFromTheRight(left + right, read) == ReadableFromTheRight(right, read) + ReadableFromTheRight(left, read)
    decreases |right|
  {
    if right == [] {
      assert left + right == left;
    } else {
      var before, entry := right[..|right| - 1], right[|right| - 1];
      ReadableOfJoined(left, before, read);
      assert right == before + [entry];
      JoinedThenAppended(left, before, entry, read);
    }
  }

  lemma JoinedThenAppended(left: seq<string>, before: seq<string>, entry: string, read: string -> Option<Addr>)
    requires ReadableFromTheRight(left + before, read) == ReadableFromTheRight(before, read) + ReadableFromTheRight(left, read)
    ensures ReadableFromTheRight(left + (before + [entry]), read) ==
            ReadableFromTheRight(before + [entry], read) + ReadableFromTheRight(left, read)
  {
    assert left + (before + [entry]) == (left + before) + [entry];
    ReadableOfAppended(before, entry, read);
    ReadableOfAppended(left + before, entry, read);
    Associate(Reading(read(entry)), ReadableFromTheRight(before, read), ReadableFromTheRight(left, read));
  }

  lemma Associate(a: seq<Addr>, b: seq<Addr>, c: seq<Addr>)
    ensures a + (b + c) == a + b + c
  {}

  function ForwardedFor(text: string): Headers {
    Headers(Text(text), Absent)
  }

  /** The search over the header. */
  function Named(nets: seq<TrustedNet>, h: Header, read: string -> Option<Addr>): Option<Addr>
    requires Block(nets)
  {
    FirstUntrusted(nets, Forwarded(Headers(h, Absent), read))
  }

  lemma NamedInJoined(nets: seq<TrustedNet>, p: string, h: string, read: string -> Option<Addr>)
    requires Block(nets)
    ensures Named(nets, Text(p + "," + h), read) ==
            if Named(nets, Text(h), read).Some? then Named(nets, Text(h), read) else Named(nets, Text(p), read)
  {
    SplitOfJoined(p, h);
    ReadableOfJoined(Split(p), Split(h), read);
    FirstOfJoined(nets, ReadableFromTheRight(Split(h), read), ReadableFromTheRight(Split(p), read));
  }

  /** What a client wrote before a comma is looked at only when nothing after it is an outsider. */
  lemma PrependedTextIsIgnored(nets: seq<TrustedNet>, peer: Option<Addr>, p: string, h: string, read: string -> Option<Addr>)
    requires Block(nets)
    ensures Address(nets, peer, ForwardedFor(p + "," + h), read) ==
            if HasOutsider(nets, Split(h), read)
            then Address(nets, peer, ForwardedFor(h), read)
            else Address(nets, peer, ForwardedFor(p), read)
  {
    NamedInJoined(nets, p, h, read);
    var i := SearchStopsAt(nets, Split(h), read);
    assert HasOutsider(nets, Split(h), read) == Named(nets, Text(h), read).Some?;
  }

  // ---------- A chain of honest proxies ----------

  /** A proxy appends the address of the connection it was handed. */
  function Appended(h: Header, spelled: string): Header {
    match h
    case Absent => Text(spelled)
    case Unreadable => Unreadable
    case Text(t) => Text(t + "," + spelled)
  }

  /** The header after the request went from `source` through `hops`; the last hop is the server's peer. */
  function AfterHops(h: Header, source: Addr, hops: seq<Addr>, spell: Addr -> string): Header
    decreases hops
  {
    if hops == [] then h
    else AfterHops(Appended(h, spell(source)), hops[0], hops[1..], spell)
  }

  /** An address is spelled without a comma and reads back. */
  ghost predicate Spelling(spell: Addr -> string, read: string -> Option<Addr>) {
    forall a: Addr :: ',' !in spell(a) && read(spell(a)) == Some(a)
  }

  lemma NamedAfterAppending(nets: seq<TrustedNet>, h: Header, a: Addr, spell: Addr -> string, read: string -> Option<Addr>)
    requires Block(nets) && Spelling(spell, read) && !h.Unreadable?
    ensures Appended(h, spell(a)).Text?
    ensures Named(nets, Appended(h, spell(a)), read) == if !Trusts(nets, a) then Some(a) else Named(nets, h, read)
  {
    var s := spell(a);
    SplitWithoutComma(s);
    assert [s][..0] == [];
    assert ReadableFromTheRight([s], read) == [a];
    if h.Text? {
      SplitOfJoined(h.text, s);
      ReadableOfJoined(Split(h.text), [s], read);
      FirstOfJoined(nets, [a], ReadableFromTheRight(Split(h.text), read));
    }
    assert [a][1..] == [];
  }

  lemma {:induction false} TrustedHopsAddNothing(nets: seq<TrustedNet>, h: Header, source: Addr, hops: seq<Addr>,
                                                 spell: Addr -> string, read: string -> Option<Addr>)
    requires Block(nets) && Spelling(spell, read) && !h.Unreadable?
    requires Trusts(nets, source) && forall a :: a in hops ==> Trusts(nets, a)
    ensures Named(nets, AfterHops(h, source, hops, spell), read) == Named(nets, h, read)
    decreases hops
  {
    if hops != [] {
      NamedAfterAppending(nets, h, source, spell, read);
      TrustedHopsAddNothing(nets, Appended(h, spell(source)), hops[0], hops[1..], spell, read);
    }
  }

  /** Through any chain of trusted proxies that append honestly, an untrusted client is named by the address it
      connected from, whatever readable header it sent and whatever the other header says. */
  lemma HonestChainNamesTheClient(nets: seq<TrustedNet>, sent: Header, realIp: Header, client: Addr, hops: seq<Addr>,
                                  spell: Addr -> string, read: string -> Option<Addr>)
    requires Block(nets) && Spelling(spell, read) && !sent.Unreadable?
    requires !Trusts(nets, client) && hops != [] && forall a :: a in hops ==> Trusts(nets, a)
    ensures Address(nets, Some(hops[|hops| - 1]), Headers(AfterHops(sent, client, hops, spell), realIp), read) == Some(client)
  {
    NamedAfterAppending(nets, sent, client, spell, read);
    TrustedHopsAddNothing(nets, Appended(sent, spell(client)), hops[0], hops[1..], spell, read);
  }
}
