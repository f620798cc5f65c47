/** Image specifications and names: the pure part of pkg/image/image.go. */
module ImageRefs {
  import opened Common

  predicate IsHexDigit(c: char) {
    '0' <= c <= '9' || 'a' <= c <= 'f'
  }

  /** The hexadecimal form of a SHA-256 digest. */
  type Hex = s: string | |s| == 64 && forall i :: 0 <= i < |s| ==> IsHexDigit(s[i])
    witness seq(64, _ => '0')

  datatype Digest = Sha256(hex: Hex) | OtherDigest(algorithm: string, text: string)

  /**
   * An image specification, represented by how the digest and reference
   * parsers read its text.
   */
  datatype ImageSpec =
    | BareDigest(digest: Digest)
    | Reference(name: string, pinned: Option<Digest>)
    | Unnamed(text: string, pinned: Option<Digest>)
    | Unparsable(text: string)

  /** The name without a tag, and the digest, if any. */
  function SplitImageName(spec: ImageSpec): (string, Option<Digest>) {
    match spec
    // The reference parser takes the text of a digest for a name and a tag.
    case BareDigest(Sha256(_)) => ("sha256", None)
    case BareDigest(OtherDigest(algorithm, _)) => (algorithm, None)
    case Reference(name, pinned) => (name, pinned)
    case Unnamed(text, _) => (text, None)
    case Unparsable(text) => (text, None)
  }

  /** The SHA-256 digest that a specification carries, if any. */
  function GetHexDigest(spec: ImageSpec): Option<Hex> {
    match spec
    case BareDigest(Sha256(hex)) => Some(hex)
    case Reference(_, Some(Sha256(hex))) => Some(hex)
    case Unnamed(_, Some(Sha256(hex))) => Some(hex)
    case _ => None
  }

  function Replace(s: string, from: char, to: char): (r: string)
    ensures |r| == |s|
    ensures forall i :: 0 <= i < |s| ==> r[i] == if s[i] == from then to else s[i]
  {
    seq(|s|, i requires 0 <= i < |s| => if s[i] == from then to else s[i])
  }

  /** The file name of the link for an image name. */
  function LinkName(name: string): string {
    Replace(name, '/', '%')
  }

  /** The image name that listing reports for a link. */
  function NameOfLink(link: string): string {
    Replace(link, '%', '/')
  }

  /** A file name is the link of the name that listing reports for it. */
  lemma LinkOfItsName(link: string)
    requires '/' !in link
    ensures LinkName(NameOfLink(link)) == link
  {
    var back := LinkName(NameOfLink(link));
    forall i | 0 <= i < |link| ensures back[i] == link[i] {
      assert link[i] in link;
    }
  }

  /** Listing reports a name back as it was pulled exactly when the name has no '%'. */
  lemma LinkNameRoundTrip(name: string)
    ensures NameOfLink(LinkName(name)) == name <==> '%' !in name
  {
    var back := NameOfLink(LinkName(name));
    if '%' !in name {
      assert forall i :: 0 <= i < |name| ==> back[i] == name[i];
    } else {
      var i :| 0 <= i < |name| && name[i] == '%';
      assert back[i] == '/';
    }
  }

  /** Two different names share a link only when one of them contains '%'. */
  lemma LinkNameInjective(a: string, b: string)
    requires LinkName(a) == LinkName(b) && a != b
    ensures '%' in a || '%' in b
  {
    LinkNameRoundTrip(a);
    LinkNameRoundTrip(b);
  }
}
