/** Ingress filter tables as `tc` keeps them: a list tried in increasing order of preference, in
    which the first filter that matches a packet decides. */
module FilterTable {

  type Mac = string

  datatype Proto = Tcp | Udp

  /** What a frame carries, as far as any installed filter can tell. */
  datatype Payload =
    | Eapol                            // EtherType 0x888e
    | Ipv4(proto: Proto, dport: int)
    | Ipv6(proto6: Proto, dport6: int)
    | Other

  datatype Packet = Packet(src: Mac, payload: Payload)

  datatype Match =
    | SrcMac(mac: Mac)
    | EapolFrames
    | Ipv4Port(proto: Proto, port: int)
    | Ipv6Port(port6: int)
    | Everything

  datatype Action = Ok | Drop

  datatype Filter = Filter(pref: nat, on: Match, action: Action)

  const MAC_PREF: nat := 9000
  const PORT_PREF: nat := 9999
  const EAPOL_PREF: nat := 10000
  const DROP_PREF: nat := 10001

  predicate Matches(m: Match, p: Packet) {
    match m
    case SrcMac(mac) => p.src == mac
    case EapolFrames => p.payload.Eapol?
    case Ipv4Port(proto, port) => p.payload.Ipv4? && p.payload.proto == proto && p.payload.dport == port
    case Ipv6Port(port) => p.payload.Ipv6? && p.payload.dport6 == port
    case Everything => true
  }

  /** The action of the first filter that matches; a packet no filter matches goes through. */
  function Verdict(t: seq<Filter>, p: Packet): Action {
    if t == [] then Ok
    else if Matches(t[0].on, p) then t[0].action
    else Verdict(t[1..], p)
  }

  /** `tc filter add`: behind every filter of the same or a lower preference. */
  function Add(t: seq<Filter>, f: Filter): seq<Filter> {
    if t == [] || f.pref < t[0].pref then [f] + t
    else [t[0]] + Add(t[1..], f)
  }

  /** `tc filter replace`: overwrites the filter with the same preference and match, or adds one. */
  function Replace(t: seq<Filter>, f: Filter): seq<Filter> {
    if t == [] || f.pref < t[0].pref then [f] + t
    else if t[0].pref == f.pref && t[0].on == f.on then [f] + t[1..]
    else [t[0]] + Replace(t[1..], f)
  }

  /** No filter of `t` is tried before preference `pref`. */
  ghost predicate AtLeast(t: seq<Filter>, pref: nat) {
    forall f :: f in t ==> pref <= f.pref
  }

  ghost predicate Sorted(t: seq<Filter>) {
    t == [] || (AtLeast(t[1..], t[0].pref) && Sorted(t[1..]))
  }

  /** Nothing is tried before `MAC_PREF`, and at `MAC_PREF` only source-address filters. */
  ghost predicate MacFirst(t: seq<Filter>) {
    forall f :: f in t ==> MAC_PREF <= f.pref && (f.pref == MAC_PREF ==> f.on.SrcMac?)
  }

  /** In a sorted table the verdict is that of a matching filter of the lowest preference, whichever
      filters of a higher preference match as well. */
  lemma {:induction false} VerdictHasLowestPref(t: seq<Filter>, p: Packet)
    requires Sorted(t)
    ensures (forall f :: f in t ==> !Matches(f.on, p)) ==> Verdict(t, p) == Ok
    ensures (exists f :: f in t && Matches(f.on, p)) ==>
              exists f :: f in t && Matches(f.on, p) && Verdict(t, p) == f.action &&
                          forall g :: g in t && Matches(g.on, p) ==> f.pref <= g.pref
  {
    if t != [] {
      if Matches(t[0].on, p) {
        assert t[0] in t;
      } else {
        VerdictHasLowestPref(t[1..], p);
      }
    }
  }

  /** Adding keeps the table sorted. */
  lemma {:induction false} AddSorted(t: seq<Filter>, f: Filter)
    requires Sorted(t)
    ensures Sorted(Add(t, f))
    ensures forall g :: g in Add(t, f) <==> g == f || g in t
  {
    if t == [] || f.pref < t[0].pref {
      assert ([f] + t)[1..] == t;
    } else {
      AddSorted(t[1..], f);
      assert Add(t, f)[1..] == Add(t[1..], f);
      assert t == [t[0]] + t[1..];
    }
  }

  /** Replacing keeps the table sorted. */
  lemma {:induction false} ReplaceSorted(t: seq<Filter>, f: Filter)
    requires Sorted(t)
    ensures Sorted(Replace(t, f))
    ensures forall g :: g in Replace(t, f) ==> g == f || g in t
  {
    if t == [] || f.pref < t[0].pref {
      assert ([f] + t)[1..] == t;
    } else if t[0].pref == f.pref && t[0].on == f.on {
      assert ([f] + t[1..])[1..] == t[1..];
    } else {
      ReplaceSorted(t[1..], f);
      assert Replace(t, f)[1..] == Replace(t[1..], f);
    }
  }

  /** Replacing a source-address filter settles every packet of that address and no other packet. */
  lemma {:induction false} ReplaceVerdict(t: seq<Filter>, mac: Mac, action: Action, p: Packet)
    requires MacFirst(t)
    ensures MacFirst(Replace(t, Filter(MAC_PREF, SrcMac(mac), action)))
    ensures Verdict(Replace(t, Filter(MAC_PREF, SrcMac(mac), action)), p) ==
            if p.src == mac then action else Verdict(t, p)
  {
    if t != [] && t[0].pref <= MAC_PREF && !(t[0].pref == MAC_PREF && t[0].on == SrcMac(mac)) {
      assert t[0] in t;
      assert forall f :: f in t[1..] ==> f in t;
      ReplaceVerdict(t[1..], mac, action, p);
    }
  }
}
