/**
 * The domain search option of the DHCP server (option 119):
 * compressedDomainList in pkg/dhcp/server.go, read back by the rules of
 * section 3.1 of RFC 1035 as RFC 3397 asks. The encoder writes no
 * compression pointers.
 */
module DomainSearch {
  import opened Common

  type Label = Bytes
  type Name = seq<Label>

  const DOT: byte := 46

  /** strings.Split(domain, "."): never empty. */
  function Split(domain: Bytes): (parts: Name)
    ensures |parts| > 0
  {
    if domain == [] then [[]]
    else
      var rest := Split(domain[1..]);
      if domain[0] == DOT then [[]] + rest else [[domain[0]] + rest[0]] + rest[1..]
  }

  function Join(parts: Name): Bytes
    requires |parts| > 0
  {
    if |parts| == 1 then parts[0] else parts[0] + [DOT] + Join(parts[1..])
  }

  /** The parts are the text between the dots: no dot is left in them and joining gives the domain back. */
  lemma {:induction false} SplitIsInverse(domain: Bytes)
    ensures Join(Split(domain)) == domain
    ensures forall i :: 0 <= i < |Split(domain)| ==> DOT !in Split(domain)[i]
  {
    if domain != [] {
      var rest := Split(domain[1..]);
      SplitIsInverse(domain[1..]);
      if domain[0] == DOT {
        assert ([[]] + rest)[1..] == rest;
      } else {
        var parts := [[domain[0]] + rest[0]] + rest[1..];
        assert parts[1..] == rest[1..];
        if |rest| > 1 {
          assert Join(parts) == [domain[0]] + (rest[0] + [DOT] + Join(rest[1..]));
        }
      }
    }
  }

  // ----- Encoding ---------------------------------------------------------

  /** The parts of one name; the length goes into a single byte. */
  function EncodeName(parts: Name): Bytes
    requires forall i :: 0 <= i < |parts| ==> |parts[i]| < 256
  {
    if parts == [] then [] else [|parts[0]|] + parts[0] + EncodeName(parts[1..])
  }

  predicate Short(parts: Name) {
    forall i :: 0 <= i < |parts| ==> |parts[i]| <= 254
  }

  predicate AllShort(names: seq<Name>) {
    forall i :: 0 <= i < |names| ==> Short(names[i])
  }

  /** Every name with a zero byte after it. */
  function Terminated(names: seq<Name>): Bytes
    requires AllShort(names)
  {
    if names == [] then [] else assert Short(names[0]); EncodeName(names[0]) + [0] + Terminated(names[1..])
  }

  function Names(domains: seq<Bytes>): (names: seq<Name>)
    ensures |names| == |domains|
    ensures forall i :: 0 <= i < |domains| ==> names[i] == Split(domains[i])
  {
    seq(|domains|, i requires 0 <= i < |domains| => Split(domains[i]))
  }

  lemma Assoc(a: Bytes, b: Bytes, c: Bytes)
    ensures a + b + c == a + (b + c)
  {
  }

  lemma Regroup(a: Bytes, b: Bytes, c: Bytes, d: Bytes)
    ensures a + b + c + d == a + (b + c + d)
  {
  }

  lemma {:induction false} EncodeNameSnoc(parts: Name, part: Label)
    requires Short(parts) && |part| <= 254
    ensures Short(parts + [part])
    ensures EncodeName(parts + [part]) == EncodeName(parts) + [|part|] + part
  {
    if parts == [] {
      assert parts + [part] == [part];
      assert [part][1..] == [];
      assert EncodeName([part]) == [|part|] + part + EncodeName([]);
    } else {
      EncodeNameSnoc(parts[1..], part);
      assert (parts + [part])[1..] == parts[1..] + [part];
      Regroup([|parts[0]|] + parts[0], EncodeName(parts[1..]), [|part|], part);
    }
  }

  lemma {:induction false} TerminatedSnoc(names: seq<Name>, name: Name)
    requires AllShort(names) && Short(name)
    ensures AllShort(names + [name])
    ensures Terminated(names + [name]) == Terminated(names) + EncodeName(name) + [0]
  {
    if names == [] {
      assert names + [name] == [name];
      assert [name][1..] == [];
      assert Terminated([name]) == EncodeName(name) + [0] + Terminated([]);
    } else {
      TerminatedSnoc(names[1..], name);
      assert (names + [name])[1..] == names[1..] + [name];
      Regroup(EncodeName(names[0]) + [0], Terminated(names[1..]), EncodeName(name), [0]);
    }
  }

  /** The inner loop: the parts of one domain. */
  method EncodeDomain(b: Bytes, domain: Bytes) returns (r: Result<Bytes>)
    ensures r.Ok? <==> Short(Split(domain))
    ensures r.Ok? ==> r.value == b + EncodeName(Split(domain))
  {
    var parts := Split(domain);
    var out := b;
    for i := 0 to |parts|
      invariant Short(parts[..i])
      invariant out == b + EncodeName(parts[..i])
    {
      if |parts[i]| > 254 { return Err; }
      assert parts[..i + 1] == parts[..i] + [parts[i]];
      EncodeNameSnoc(parts[..i], parts[i]);
      Regroup(b, EncodeName(parts[..i]), [|parts[i]|], parts[i]);
      out := out + [|parts[i]|] + parts[i];
    }
    assert parts[..|parts|] == parts;
    return Ok(out);
  }

  /**
   * compressedDomainList: every name with a zero byte after it, but for the
   * last zero byte.
   */
  method CompressedDomainList(domains: seq<Bytes>) returns (r: Result<Bytes>)
    ensures r.Ok? <==> AllShort(Names(domains))
    ensures r.Ok? && domains == [] ==> r.value == []
    ensures r.Ok? && domains != [] ==> r.value + [0] == Terminated(Names(domains))
  {
    ghost var names := Names(domains);
    var b: Bytes := [];
    for n := 0 to |domains|
      invariant AllShort(names[..n])
      invariant n == 0 ==> b == []
      invariant n > 0 ==> b + [0] == Terminated(names[..n])
    {
      if n > 0 {
        b := b + [0];
      }
      assert b == Terminated(names[..n]);
      var encoded := EncodeDomain(b, domains[n]);
      if encoded.Err? {
        assert !Short(names[n]);
        return Err;
      }
      assert names[..n + 1] == names[..n] + [names[n]];
      TerminatedSnoc(names[..n], names[n]);
      b := encoded.value;
    }
    assert names[..|domains|] == names;
    return Ok(b);
  }

  // ----- Reading ----------------------------------------------------------

  /** Section 3.1 of RFC 1035: labels of 1 to 63 octets up to the zero octet, which is the root. */
  function ReadName(b: Bytes): (r: Option<(Name, Bytes)>)
    ensures r.Some? ==> |r.value.1| < |b|
    ensures r.Some? ==> Legal(r.value.0)
  {
    if b == [] then None
    else if b[0] == 0 then Some(([], b[1..]))
    else if b[0] > 63 || |b| < 1 + b[0] then None
    else
      match ReadName(b[1 + b[0]..])
      case None => None
      case Some((rest, tail)) => Some(([b[1..1 + b[0]]] + rest, tail))
  }

  function ReadNames(b: Bytes): (r: Option<seq<Name>>)
    ensures r.Some? ==> AllLegal(r.value)
    decreases |b|
  {
    if b == [] then Some([])
    else
      match ReadName(b)
      case None => None
      case Some((name, tail)) =>
        match ReadNames(tail)
        case None => None
        case Some(rest) => Some([name] + rest)
  }

  /** The length limits of section 3.1 of RFC 1035. */
  predicate Legal(parts: Name) {
    forall i :: 0 <= i < |parts| ==> 1 <= |parts[i]| <= 63
  }

  predicate AllLegal(names: seq<Name>) {
    forall i :: 0 <= i < |names| ==> Legal(names[i])
  }

  lemma ReadLabel(part: Label, tail: Bytes)
    requires 1 <= |part| <= 63
    ensures ReadName([|part|] + part + tail) ==
              match ReadName(tail) { case None => None case Some((rest, t)) => Some(([part] + rest, t)) }
  {
    var b := [|part|] + part + tail;
    assert b[1..1 + |part|] == part;
    assert b[1 + |part|..] == tail;
  }

  lemma ReadRoot(tail: Bytes)
    ensures ReadName([] + [0] + tail) == Some(([], tail))
  {
    assert [] + [0] + tail == [0] + tail;
    assert ([0] + tail)[1..] == tail;
  }

  /** A label in front of an encoded name. */
  lemma ReadMore(part: Label, encoded: Bytes, rest: Name, tail: Bytes)
    requires 1 <= |part| <= 63 && ReadName(encoded + [0] + tail) == Some((rest, tail))
    ensures ReadName([|part|] + part + encoded + [0] + tail) == Some(([part] + rest, tail))
  {
    Regroup([|part|] + part, encoded, [0], tail);
    ReadLabel(part, encoded + [0] + tail);
  }

  lemma {:induction false} ReadEncodedName(parts: Name, tail: Bytes)
    requires Legal(parts)
    ensures ReadName(EncodeName(parts) + [0] + tail) == Some((parts, tail))
  {
    if parts == [] {
      ReadRoot(tail);
    } else {
      ReadEncodedName(parts[1..], tail);
      ReadMore(parts[0], EncodeName(parts[1..]), parts[1..], tail);
      assert [parts[0]] + parts[1..] == parts;
    }
  }

  lemma {:induction false} ReadTerminated(names: seq<Name>)
    requires AllLegal(names)
    ensures AllShort(names)
    ensures ReadNames(Terminated(names)) == Some(names)
  {
    if names != [] {
      assert Legal(names[0]);
      ReadTerminated(names[1..]);
      ReadEncodedName(names[0], Terminated(names[1..]));
      assert EncodeName(names[0]) + [0] + Terminated(names[1..]) != [];
      assert [names[0]] + names[1..] == names;
    }
  }

  /**
   * The option with its last zero byte added gives the search list back
   * exactly when every part is within the limits of the RFC, which is
   * stricter than the limit of 254 that the encoder checks.
   */
  lemma ListRoundTrip(domains: seq<Bytes>)
    requires AllShort(Names(domains))
    ensures ReadNames(Terminated(Names(domains))) == Some(Names(domains)) <==> AllLegal(Names(domains))
  {
    if AllLegal(Names(domains)) {
      ReadTerminated(Names(domains));
    }
  }

  lemma {:induction false} UnfinishedName(parts: Name)
    requires Legal(parts)
    ensures ReadName(EncodeName(parts)).None?
  {
    if parts != [] {
      UnfinishedName(parts[1..]);
      ReadLabel(parts[0], EncodeName(parts[1..]));
    }
  }

  lemma ReadNamesStep(b: Bytes, name: Name, tail: Bytes)
    requires ReadName(b) == Some((name, tail))
    ensures ReadNames(b) == match ReadNames(tail) { case None => None case Some(rest) => Some([name] + rest) }
  {
  }

  /** All the names but the last are followed by the zero byte. */
  lemma {:induction false} UnfinishedNames(names: seq<Name>, last: Name)
    requires AllLegal(names) && Legal(last) && last != []
    ensures AllShort(names)
    ensures ReadNames(Terminated(names) + EncodeName(last)).None?
  {
    if names == [] {
      assert Terminated(names) + EncodeName(last) == EncodeName(last);
      UnfinishedName(last);
    } else {
      assert Legal(names[0]);
      UnfinishedNames(names[1..], last);
      var tail := Terminated(names[1..]) + EncodeName(last);
      ReadEncodedName(names[0], tail);
      ReadNamesStep(EncodeName(names[0]) + [0] + tail, names[0], tail);
      Assoc(EncodeName(names[0]) + [0], Terminated(names[1..]), EncodeName(last));
    }
  }

  /**
   * The bytes as they are sent lack the last zero byte: a reader that follows
   * the RFC to the letter accepts no legal list but the empty one.
   */
  lemma SentListUnreadable(domains: seq<Bytes>, sent: Bytes)
    requires domains != [] && AllLegal(Names(domains))
    requires AllShort(Names(domains)) && sent + [0] == Terminated(Names(domains))
    ensures ReadNames(sent).None?
  {
    var names := Names(domains);
    var front, last := names[..|names| - 1], names[|names| - 1];
    assert Legal(last) && Short(last);
    assert names == front + [last];
    UnfinishedNames(front, last);
    TerminatedSnoc(front, last);
    assert sent + [0] == (Terminated(front) + EncodeName(last)) + [0];
    assert sent == (sent + [0])[..|sent|];
    assert sent == Terminated(front) + EncodeName(last);
  }
}
