/**
 * The router and classless static route options of the DHCP server:
 * getStaticRoutes and its helpers in pkg/dhcp/server.go. Option 121 follows
 * the "Classless Route Option Format" section of RFC 3442.
 */
module StaticRoutes {
  import opened Common

  // ----- Addresses and masks ----------------------------------------------

  /** An address as the standard library holds it: 4 or 16 octets; the empty sequence is nil. */
  type IP = Bytes

  const ZERO4: Bytes := [0, 0, 0, 0]

  /** The four octets of an IPv4 address, or nil. */
  function To4(ip: IP): IP {
    if |ip| == 4 then ip
    else if |ip| == 16 && (forall i :: 0 <= i < 10 ==> ip[i] == 0) && ip[10] == 255 && ip[11] == 255 then ip[12..]
    else []
  }

  /** An IPv4 address is found both as itself and behind the prefix ::ffff. */
  lemma To4Finds(v4: Bytes)
    requires |v4| == 4
    ensures To4(v4) == v4 && To4(Repeat(0, 10) + [255, 255] + v4) == v4
  {
    var mapped := Repeat(0, 10) + [255, 255] + v4;
    assert mapped[12..] == v4;
  }

  /** The number of leading ones of an octet of a canonical mask. */
  function OctetOnes(b: byte): Option<nat> {
    if b == 0 then Some(0) else if b == 128 then Some(1) else if b == 192 then Some(2)
    else if b == 224 then Some(3) else if b == 240 then Some(4) else if b == 248 then Some(5)
    else if b == 252 then Some(6) else if b == 254 then Some(7) else if b == 255 then Some(8) else None
  }

  /** The length of a mask that is ones followed by zeros. */
  function CanonicalSize(mask: Bytes): (r: Option<nat>)
    ensures r.Some? ==> r.value <= 8 * |mask|
  {
    if mask == [] then Some(0)
    else if mask[0] == 255 then
      match CanonicalSize(mask[1..])
      case None => None
      case Some(n) => Some(8 + n)
    else if forall i :: 1 <= i < |mask| ==> mask[i] == 0 then OctetOnes(mask[0])
    else None
  }

  /** IPMask.Size, which is 0 for a mask that is not canonical. */
  function MaskSize(mask: Bytes): nat {
    if CanonicalSize(mask).Some? then CanonicalSize(mask).value else 0
  }

  function Pow2(k: nat): nat {
    if k == 0 then 1 else 2 * Pow2(k - 1)
  }

  /** The k bits of a number, the most significant one first. */
  function Bits(b: nat, k: nat): (bits: seq<bool>)
    ensures |bits| == k
  {
    if k == 0 then []
    else
      var weight := Pow2(k - 1);
      if b >= weight then [true] + Bits(b - weight, k - 1) else [false] + Bits(b, k - 1)
  }

  /** The bits of a mask, in the order of the network. */
  function MaskBits(mask: Bytes): (bits: seq<bool>)
    ensures |bits| == 8 * |mask|
  {
    if mask == [] then [] else Bits(mask[0], 8) + MaskBits(mask[1..])
  }

  /** There are n ones and then only zeros. */
  predicate OnesThenZeros(bits: seq<bool>, n: nat) {
    n <= |bits| && forall i :: 0 <= i < |bits| ==> (bits[i] <==> i < n)
  }

  lemma OnesThenZerosConcat(a: seq<bool>, b: seq<bool>, n: nat)
    ensures OnesThenZeros(a + b, n) <==>
            if n <= |a| then OnesThenZeros(a, n) && OnesThenZeros(b, 0)
            else OnesThenZeros(a, |a|) && OnesThenZeros(b, n - |a|)
  {
    var ab := a + b;
    assert forall i :: 0 <= i < |a| ==> ab[i] == a[i];
    assert forall i :: 0 <= i < |b| ==> ab[|a| + i] == b[i];
    assert forall i :: |a| <= i < |ab| ==> ab[i] == b[i - |a|];
  }

  /** The number whose k bits are n ones and then zeros. */
  lemma {:induction false} LeadingOnes(b: nat, k: nat, n: nat)
    requires b < Pow2(k) && n <= k
    ensures OnesThenZeros(Bits(b, k), n) <==> b == Pow2(k) - Pow2(k - n)
    decreases k
  {
    if k > 0 {
      var weight := Pow2(k - 1);
      var first, rest := b >= weight, if b >= weight then b - weight else b;
      OnesThenZerosConcat([first], Bits(rest, k - 1), n);
      assert [first][0] == first;
      LeadingOnes(rest, k - 1, if n == 0 then 0 else n - 1);
      Pow2Grows(k - n, k);
    }
  }

  lemma {:induction false} Pow2Grows(i: nat, k: nat)
    requires i <= k
    ensures 1 <= Pow2(i) <= Pow2(k)
    ensures i < k ==> Pow2(i) <= Pow2(k - 1)
    decreases k
  {
    if i < k {
      Pow2Grows(i, k - 1);
    } else if k > 0 {
      Pow2Grows(k - 1, k - 1);
    }
  }

  lemma OctetOnesIff(b: byte, n: nat)
    ensures OctetOnes(b) == Some(n) <==> OnesThenZeros(Bits(b, 8), n)
  {
    assert Pow2(4) == 16 && Pow2(8) == 256;
    if n <= 8 {
      LeadingOnes(b, 8, n);
    }
  }

  lemma FirstOctet(b: byte, rest: seq<bool>, n: nat)
    ensures OnesThenZeros(Bits(b, 8) + rest, n) <==>
            if n <= 8 then OctetOnes(b) == Some(n) && OnesThenZeros(rest, 0)
            else OctetOnes(b) == Some(8) && OnesThenZeros(rest, n - 8)
  {
    OnesThenZerosConcat(Bits(b, 8), rest, n);
    OctetOnesIff(b, if n <= 8 then n else 8);
  }

  /** The same, octet by octet. */
  predicate PrefixMask(mask: Bytes, n: nat) {
    if mask == [] then n == 0
    else if n <= 8 then OctetOnes(mask[0]) == Some(n) && PrefixMask(mask[1..], 0)
    else OctetOnes(mask[0]) == Some(8) && PrefixMask(mask[1..], n - 8)
  }

  lemma {:induction false} PrefixMaskBits(mask: Bytes, n: nat)
    ensures PrefixMask(mask, n) <==> OnesThenZeros(MaskBits(mask), n)
  {
    if mask != [] {
      FirstOctet(mask[0], MaskBits(mask[1..]), n);
      PrefixMaskBits(mask[1..], if n <= 8 then 0 else n - 8);
    }
  }

  lemma {:induction false} ZeroMask(mask: Bytes)
    ensures PrefixMask(mask, 0) <==> forall i :: 0 <= i < |mask| ==> mask[i] == 0
  {
    if mask != [] {
      ZeroMask(mask[1..]);
      assert (forall i :: 0 <= i < |mask| ==> mask[i] == 0) <==>
             mask[0] == 0 && forall i :: 0 <= i < |mask[1..]| ==> mask[1..][i] == 0;
    }
  }

  lemma {:induction false} SizeOfPrefixMask(mask: Bytes, n: nat)
    ensures CanonicalSize(mask) == Some(n) <==> PrefixMask(mask, n)
  {
    if mask != [] {
      if mask[0] == 255 {
        if n >= 8 { SizeOfPrefixMask(mask[1..], n - 8); }
      } else {
        ZeroMask(mask[1..]);
        assert forall i :: 1 <= i < |mask| ==> mask[i] == mask[1..][i - 1];
      }
    }
  }

  /** The size of a mask is the number of its leading ones, if there are only zeros after them. */
  lemma MaskSizeIff(mask: Bytes, n: nat)
    ensures CanonicalSize(mask) == Some(n) <==> OnesThenZeros(MaskBits(mask), n)
  {
    SizeOfPrefixMask(mask, n);
    PrefixMaskBits(mask, n);
  }

  datatype Route = Route(dst: IP, mask: Bytes, gw: IP)

  // ----- What becomes of one route ----------------------------------------

  /** A route as option 121 carries it. */
  datatype Entry = Entry(width: nat, dst: Bytes, gw: Bytes)

  datatype Verdict =
    | Invalid                     // an error for the whole list
    | Crash                       // a slice out of range or a nil dereference
    | Outside                     // the gateway is not in the subnet
    | DefaultVia(gw: Bytes)
    | StaticVia(entry: Entry)

  /** One address of the CNI result. */
  datatype IPConfig = IPConfig(version: string, gateway: IP)

  /** The gateway of the last IPv4 configuration; None when there is no such configuration. */
  predicate IsLastIPv4Gateway(ips: seq<IPConfig>, r: Option<IP>) {
    && (r.None? ==> forall i :: 0 <= i < |ips| ==> ips[i].version != "4")
    && (r.Some? ==> exists i :: 0 <= i < |ips| && ips[i].version == "4" && r.value == ips[i].gateway
                                && forall j :: i < j < |ips| ==> ips[j].version != "4")
  }

  /** The inner loop of getStaticRoutes. */
  method LastIPv4Gateway(ips: seq<IPConfig>) returns (r: Option<IP>)
    ensures IsLastIPv4Gateway(ips, r)
  {
    r := None;
    ghost var at: nat := 0;
    for n := 0 to |ips|
      invariant r.None? ==> forall i :: 0 <= i < n ==> ips[i].version != "4"
      invariant r.Some? ==> at < n && ips[at].version == "4" && r.value == ips[at].gateway
      invariant r.Some? ==> forall j :: at < j < n ==> ips[j].version != "4"
    {
      if ips[n].version == "4" {
        r, at := Some(ips[n].gateway), n;
      }
    }
  }

  /**
   * The gateway of a route. A route without one takes it from the last IPv4
   * configuration, which `fallback` gives; None means there is none.
   */
  function Gateway(route: Route, fallback: Option<IP>): Option<Result<IP>> {
    if route.gw != [] then Some(Ok(To4(route.gw)))
    else if fallback.None? then None
    else if To4(fallback.value) == [] && fallback.value != [] then Some(Err)
    else Some(Ok(To4(fallback.value)))
  }

  function SignificantOctets(width: nat): nat {
    (width + 7) / 8
  }

  /** The octet counts that RFC 3442 tabulates for the widths of a subnet mask. */
  function RfcOctets(width: nat): nat {
    if width == 0 then 0
    else if width <= 8 then 1
    else if width <= 16 then 2
    else if width <= 24 then 3
    else 4
  }

  /** The encoder's formula gives the counts of the table. */
  lemma SignificantOctetsByTable(width: nat)
    ensures width <= 32 ==> SignificantOctets(width) == RfcOctets(width)
    ensures SignificantOctets(width) <= 4 <==> width <= 32
  {
  }

  /** What getStaticRoutes makes of one route; `inSubnet` is the test against the leased subnet. */
  function Judge(route: Route, fallback: Option<IP>, inSubnet: IP -> bool): Verdict {
    if route.dst == [] then Invalid
    else
      match Gateway(route, fallback)
      case None => Crash
      case Some(Err) => Invalid
      case Some(Ok(gw)) =>
        var dst := To4(route.dst);
        var width := MaskSize(route.mask);
        if !inSubnet(gw) then Outside
        else if gw != [] && dst == ZERO4 && width == 0 then DefaultVia(gw)
        else if SignificantOctets(width) > |dst| then Crash
        else StaticVia(Entry(width, dst[..SignificantOctets(width)], if gw != [] then gw else ZERO4))
  }

  // ----- Encoding ---------------------------------------------------------

  /** writeRoute */
  function Encode(e: Entry): Bytes
    requires e.width < 256
  {
    [e.width] + e.dst + e.gw
  }

  /** An entry that the format can express. */
  predicate Expressible(e: Entry) {
    e.width <= 32 && |e.dst| == RfcOctets(e.width) && |e.gw| == 4
  }

  predicate AllExpressible(es: seq<Entry>) {
    forall i :: 0 <= i < |es| ==> Expressible(es[i])
  }

  function EncodeAll(es: seq<Entry>): Bytes
    requires AllExpressible(es)
  {
    if es == [] then [] else assert Expressible(es[0]); Encode(es[0]) + EncodeAll(es[1..])
  }

  /** Reading option 121 by the RFC: a width, the significant octets of the destination, the router. */
  function Decode(b: Bytes): Option<seq<Entry>> {
    if b == [] then Some([])
    else
      var n := RfcOctets(b[0]);
      if b[0] > 32 || |b| < 1 + n + 4 then None
      else
        match Decode(b[1 + n + 4..])
        case None => None
        case Some(rest) => Some([Entry(b[0], b[1..1 + n], b[1 + n..1 + n + 4])] + rest)
  }

  lemma DecodeOne(e: Entry, tail: Bytes)
    requires Expressible(e)
    ensures Decode(Encode(e) + tail) ==
              match Decode(tail) { case None => None case Some(rest) => Some([e] + rest) }
  {
    var b := Encode(e) + tail;
    var n := RfcOctets(e.width);
    assert b[1..1 + n] == e.dst;
    assert b[1 + n..1 + n + 4] == e.gw;
    assert b[1 + n + 4..] == tail;
  }

  /** Every list of expressible routes comes back from its encoding. */
  lemma {:induction false} DecodeEncodeAll(es: seq<Entry>)
    requires AllExpressible(es)
    ensures Decode(EncodeAll(es)) == Some(es)
  {
    if es != [] {
      DecodeEncodeAll(es[1..]);
      DecodeOne(es[0], EncodeAll(es[1..]));
      assert [es[0]] + es[1..] == es;
    }
  }

  lemma {:induction false} EncodeAllSnoc(es: seq<Entry>, e: Entry)
    requires AllExpressible(es) && Expressible(e)
    ensures EncodeAll(es + [e]) == EncodeAll(es) + Encode(e)
  {
    if es == [] {
      assert [] + [e] == [e];
      assert EncodeAll([e]) == Encode(e) + EncodeAll([e][1..]);
      assert EncodeAll([e][1..]) == [];
      assert EncodeAll([]) == [];
    } else {
      EncodeAllSnoc(es[1..], e);
      assert (es + [e])[1..] == es[1..] + [e];
      assert Encode(es[0]) + (EncodeAll(es[1..]) + Encode(e)) == Encode(es[0]) + EncodeAll(es[1..]) + Encode(e);
    }
  }

  // ----- The whole list ---------------------------------------------------

  /** The options; the empty sequence stands for nil. */
  datatype Outcome = Options(router: Bytes, routes: Bytes) | Failed | Crashed

  /** The in-subnet routes other than default ones, in order. */
  function Statics(vs: seq<Verdict>): (es: seq<Entry>) {
    if vs == [] then []
    else
      var front := Statics(vs[..|vs| - 1]);
      if vs[|vs| - 1].StaticVia? then front + [vs[|vs| - 1].entry] else front
  }

  /** The gateway of the last in-subnet default route, or nil. */
  function LastDefault(vs: seq<Verdict>): Bytes {
    if vs == [] then []
    else if vs[|vs| - 1].DefaultVia? then vs[|vs| - 1].gw
    else LastDefault(vs[..|vs| - 1])
  }

  function Verdicts(routes: seq<Route>, judge: Route -> Verdict): (vs: seq<Verdict>)
    ensures |vs| == |routes|
    ensures forall i :: 0 <= i < |routes| ==> vs[i] == judge(routes[i])
  {
    seq(|routes|, i requires 0 <= i < |routes| => judge(routes[i]))
  }

  predicate Bad(v: Verdict) {
    v.Invalid? || v.Crash?
  }

  const DEFAULT_WIDTH := 0

  /** The routes that option 121 should carry: the static ones, then the default one if there is any. */
  function Carried(vs: seq<Verdict>): seq<Entry> {
    if LastDefault(vs) == [] then Statics(vs) else Statics(vs) + [Entry(DEFAULT_WIDTH, [], LastDefault(vs))]
  }

  /** Every static verdict is among the statics, after those of the routes before it and no others. */
  lemma {:induction false} StaticsInOrder(vs: seq<Verdict>, i: nat)
    requires i < |vs| && vs[i].StaticVia?
    ensures |Statics(vs[..i])| < |Statics(vs)|
    ensures Statics(vs)[|Statics(vs[..i])|] == vs[i].entry
    ensures Statics(vs[..i]) == Statics(vs)[..|Statics(vs[..i])|]
    decreases |vs|
  {
    var front := vs[..|vs| - 1];
    if i < |front| {
      StaticsInOrder(front, i);
      assert front[..i] == vs[..i];
    }
  }

  /** Nothing but static verdicts is among the statics. */
  lemma {:induction false} StaticsOnly(vs: seq<Verdict>, e: Entry)
    requires e in Statics(vs)
    ensures StaticVia(e) in vs
  {
    var last := vs[|vs| - 1];
    if last != StaticVia(e) {
      StaticsOnly(vs[..|vs| - 1], e);
    }
  }

  /** A verdict that can be encoded: a wider mask would have crashed the encoder. */
  predicate Writable(v: Verdict) {
    && (v.StaticVia? ==> Expressible(v.entry))
    && (v.DefaultVia? ==> |v.gw| == 4)
  }

  lemma {:induction false} LastDefaultIsLast(vs: seq<Verdict>)
    requires forall i :: 0 <= i < |vs| ==> Writable(vs[i])
    ensures LastDefault(vs) == [] ==> forall i :: 0 <= i < |vs| ==> !vs[i].DefaultVia?
    ensures LastDefault(vs) != [] ==>
              exists i :: 0 <= i < |vs| && vs[i] == DefaultVia(LastDefault(vs))
                          && forall j :: i < j < |vs| ==> !vs[j].DefaultVia?
  {
    if vs != [] && !vs[|vs| - 1].DefaultVia? {
      LastDefaultIsLast(vs[..|vs| - 1]);
    }
  }

  lemma JudgeWritable(route: Route, fallback: Option<IP>, inSubnet: IP -> bool)
    ensures Writable(Judge(route, fallback, inSubnet))
  {
    SignificantOctetsByTable(MaskSize(route.mask));
  }

  /** The buffer and the router variable after the verdicts so far. */
  ghost predicate Accumulated(vs: seq<Verdict>, b: Bytes, router: Bytes) {
    && AllExpressible(Statics(vs))
    && b == EncodeAll(Statics(vs))
    && router == LastDefault(vs)
    && (router == [] || |router| == 4)
  }

  lemma AccumulateStep(vs: seq<Verdict>, v: Verdict, b: Bytes, router: Bytes)
    requires Accumulated(vs, b, router) && Writable(v)
    ensures v.StaticVia? ==> Accumulated(vs + [v], b + Encode(v.entry), router)
    ensures v.DefaultVia? ==> Accumulated(vs + [v], b, v.gw)
    ensures v.Outside? ==> Accumulated(vs + [v], b, router)
  {
    assert (vs + [v])[..|vs|] == vs;
    if v.StaticVia? {
      EncodeAllSnoc(Statics(vs), v.entry);
    }
  }

  /** What the options say when all the routes are judged. */
  predicate Answers(vs: seq<Verdict>, r: Outcome) {
    && r.Options?
    && r.router == (if Statics(vs) == [] then LastDefault(vs) else [])
    && Decode(r.routes) == Some(if Statics(vs) == [] then [] else Carried(vs))
  }

  lemma AccumulatedAnswers(vs: seq<Verdict>, b: Bytes, router: Bytes)
    requires Accumulated(vs, b, router)
    ensures b != [] && router != [] ==> Answers(vs, Options([], b + Encode(Entry(DEFAULT_WIDTH, [], router))))
    ensures b == [] || router == [] ==> Answers(vs, Options(router, b))
  {
    var es := Statics(vs);
    assert (b == []) == (es == []) by {
      if es != [] { assert Expressible(es[0]); }
    }
    if b != [] && router != [] {
      var e := Entry(DEFAULT_WIDTH, [], router);
      EncodeAllSnoc(es, e);
      DecodeEncodeAll(es + [e]);
    } else {
      DecodeEncodeAll(es);
    }
  }

  /** The list stops the server at this verdict. */
  predicate StopsAt(vs: seq<Verdict>, i: nat) {
    i < |vs| && Bad(vs[i]) && forall k :: 0 <= k < i ==> !Bad(vs[k])
  }

  function JudgeOf(fallback: Option<IP>, inSubnet: IP -> bool): Route -> Verdict {
    (route: Route) => Judge(route, fallback, inSubnet)
  }

  /** What the routes give: a failure or a crash at the first bad one, and otherwise the options. */
  ghost predicate Delivers(routes: seq<Route>, judge: Route -> Verdict, r: Outcome) {
    var vs := Verdicts(routes, judge);
    match r
    case Failed => exists i: nat :: StopsAt(vs, i) && vs[i].Invalid?
    case Crashed => exists i: nat :: StopsAt(vs, i) && vs[i].Crash?
    case Options(_, _) => (forall i :: 0 <= i < |vs| ==> !Bad(vs[i])) && Answers(vs, r)
  }

  /** The loop of getStaticRoutes, over what it makes of each route. */
  method Assemble(routes: seq<Route>, judge: Route -> Verdict) returns (r: Outcome)
    requires forall route :: Writable(judge(route))
    ensures Delivers(routes, judge, r)
  {
    ghost var vs := Verdicts(routes, judge);
    if |routes| == 0 { return Options([], []); }
    var b: Bytes := [];
    var router: Bytes := [];
    for i := 0 to |routes|
      invariant forall k :: 0 <= k < i ==> !Bad(vs[k])
      invariant Accumulated(vs[..i], b, router)
    {
      var v := judge(routes[i]);
      if Bad(v) {
        assert StopsAt(vs, i);
        return if v.Invalid? then Failed else Crashed;
      }
      AccumulateStep(vs[..i], v, b, router);
      assert vs[..i + 1] == vs[..i] + [v];
      if v.DefaultVia? {
        router := v.gw;
      } else if v.StaticVia? {
        b := b + Encode(v.entry);
      }
    }
    assert vs[..|routes|] == vs;
    AccumulatedAnswers(vs, b, router);
    if |b| != 0 && router != [] {
      b := b + Encode(Entry(DEFAULT_WIDTH, [], router));
      router := [];
    }
    return Options(router, b);
  }

  /**
   * getStaticRoutes: the first bad route decides a failure; otherwise option
   * 121, read by the RFC, gives exactly the routes that should be carried.
   */
  method GetStaticRoutes(routes: seq<Route>, ips: seq<IPConfig>, inSubnet: IP -> bool) returns (r: Outcome)
    ensures exists fallback :: IsLastIPv4Gateway(ips, fallback) && Delivers(routes, JudgeOf(fallback, inSubnet), r)
  {
    var fallback := LastIPv4Gateway(ips);
    var judge := JudgeOf(fallback, inSubnet);
    forall route ensures Writable(judge(route)) {
      JudgeWritable(route, fallback, inSubnet);
    }
    r := Assemble(routes, judge);
  }

  /**
   * The router option and option 121 are never both given, and a default
   * route is in one of them whenever some default route is in the subnet.
   */
  lemma RouterOrRoutes(vs: seq<Verdict>, r: Outcome)
    requires Answers(vs, r)
    ensures r.router == [] || r.routes == []
    ensures LastDefault(vs) != [] ==>
              r.router == LastDefault(vs) || Entry(DEFAULT_WIDTH, [], LastDefault(vs)) in Decode(r.routes).value
  {
    if Statics(vs) != [] && LastDefault(vs) != [] {
      var es := Decode(r.routes).value;
      assert es[|es| - 1] == Entry(DEFAULT_WIDTH, [], LastDefault(vs));
    }
  }

  // ----- What the client reads --------------------------------------------

  /** The destination that a client makes of an entry. */
  function Destination(e: Entry): Bytes {
    if |e.dst| <= 4 then e.dst + Repeat(0, 4 - |e.dst|) else e.dst
  }

  /** The gateway that an IPv4 route really has. */
  function EffectiveGateway(route: Route, fallback: Option<IP>): IP {
    if route.gw != [] then To4(route.gw) else if fallback.Some? then To4(fallback.value) else []
  }

  /**
   * A route to an IPv4 network through an IPv4 gateway is never bad. Outside
   * the subnet it is dropped; otherwise the client reads the network and the
   * gateway of the route itself, and the network exactly when the octets past
   * the mask are zero.
   */
  lemma IPv4RouteRead(route: Route, fallback: Option<IP>, inSubnet: IP -> bool)
    requires |To4(route.dst)| == 4 && MaskSize(route.mask) <= 32
    requires |EffectiveGateway(route, fallback)| == 4
    ensures var v, gw, width := Judge(route, fallback, inSubnet), EffectiveGateway(route, fallback),
            MaskSize(route.mask);
            && !Bad(v)
            && (v.Outside? <==> !inSubnet(gw))
            && (v == DefaultVia(gw) <==> inSubnet(gw) && width == 0 && To4(route.dst) == ZERO4)
            && (inSubnet(gw) && !v.DefaultVia? ==>
                  && v.StaticVia? && v.entry.width == width && v.entry.gw == gw
                  && (Destination(v.entry) == To4(route.dst) <==>
                        forall i :: RfcOctets(width) <= i < 4 ==> To4(route.dst)[i] == 0))
  {
    var v := Judge(route, fallback, inSubnet);
    if v.StaticVia? {
      var e, dst, n := v.entry, To4(route.dst), RfcOctets(v.entry.width);
      SignificantOctetsByTable(v.entry.width);
      assert forall i :: 0 <= i < n ==> Destination(e)[i] == dst[i];
      assert forall i :: n <= i < 4 ==> Destination(e)[i] == 0;
    }
  }

  /**
   * A route to a network that is not IPv4, through an IPv4 gateway: outside
   * the subnet it is dropped; inside it the client reads an IPv4 default
   * route if the mask is empty, and otherwise the encoder crashes.
   */
  lemma ForeignRouteMisread(route: Route, fallback: Option<IP>, inSubnet: IP -> bool)
    requires route.dst != [] && To4(route.dst) == [] && |EffectiveGateway(route, fallback)| == 4
    ensures var gw := EffectiveGateway(route, fallback);
            Judge(route, fallback, inSubnet) ==
              if !inSubnet(gw) then Outside
              else if MaskSize(route.mask) == 0 then StaticVia(Entry(DEFAULT_WIDTH, [], gw))
              else Crash
  {
  }

  /** With its gateway in the subnet, a route crashes the encoder exactly when its mask reaches past its IPv4 octets. */
  lemma CrashIff(route: Route, fallback: Option<IP>, inSubnet: IP -> bool)
    requires route.dst != [] && |EffectiveGateway(route, fallback)| == 4
    requires inSubnet(EffectiveGateway(route, fallback))
    ensures Judge(route, fallback, inSubnet).Crash? <==> MaskSize(route.mask) > 8 * |To4(route.dst)|
  {
  }

  /** What a client makes of an entry is the route itself. */
  predicate ReadsAs(e: Entry, route: Route, gw: IP) {
    && |To4(route.dst)| == 4 && e.width == MaskSize(route.mask) && e.gw == gw
    && Destination(e) == To4(route.dst)
  }

  /** A route that is right as the CNI result gives it: an IPv4 network without host octets past its mask. */
  predicate ProperNetwork(route: Route) {
    && |To4(route.dst)| == 4 && MaskSize(route.mask) <= 32
    && forall i :: RfcOctets(MaskSize(route.mask)) <= i < 4 ==> To4(route.dst)[i] == 0
  }

  /**
   * A route through an IPv4 gateway of the subnet reaches the client as
   * itself, in option 121 or as a default route, if and only if it is to a
   * proper IPv4 network.
   */
  lemma RouteReadsItselfIff(route: Route, fallback: Option<IP>, inSubnet: IP -> bool)
    requires route.dst != [] && |EffectiveGateway(route, fallback)| == 4
    requires inSubnet(EffectiveGateway(route, fallback))
    ensures var v, gw := Judge(route, fallback, inSubnet), EffectiveGateway(route, fallback);
            (v.StaticVia? && ReadsAs(v.entry, route, gw))
            || (v == DefaultVia(gw) && ReadsAs(Entry(DEFAULT_WIDTH, [], gw), route, gw))
            <==> ProperNetwork(route)
  {
    var v, gw := Judge(route, fallback, inSubnet), EffectiveGateway(route, fallback);
    if To4(route.dst) == [] {
      ForeignRouteMisread(route, fallback, inSubnet);
    } else if MaskSize(route.mask) <= 32 {
      IPv4RouteRead(route, fallback, inSubnet);
      if v.DefaultVia? {
        assert Destination(Entry(DEFAULT_WIDTH, [], gw)) == ZERO4;
      }
    } else {
      CrashIff(route, fallback, inSubnet);
    }
  }
}
