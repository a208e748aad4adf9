/** Fiscal act evidence: the preimage of one act and the contribution of an ordered list of acts. */
module ActEvidence {
  import opened Framing

  datatype Acknowledgement = Omitted | No | Yes

  function StateName(a: Acknowledgement): string {
    match a
    case Omitted => "omitted"
    case No => "false"
    case Yes => "true"
  }

  const ACT_FRAME := "drenyra:fiscal-act-evidence:v1\0"
  const LINKS_FRAME := "drenyra:fiscal-envelope-links:v1\0"

  function ActParts(bindingHash: Bytes, reviewedHash: Bytes, evidence: Acknowledgement, rule: Acknowledgement): seq<Bytes> {
    [bindingHash, reviewedHash, Encode(StateName(evidence)), Encode(StateName(rule))]
  }

  function ActPreimage(bindingHash: Bytes, reviewedHash: Bytes, evidence: Acknowledgement, rule: Acknowledgement): Bytes {
    Encode(ACT_FRAME) + Frames(ActParts(bindingHash, reviewedHash, evidence, rule))
  }

  /** The buffer whose digest is the act-evidence hash. */
  method ActEvidenceBytes(bindingHash: Bytes, reviewedHash: Bytes, evidence: Acknowledgement, rule: Acknowledgement)
      returns (buf: Bytes)
    ensures buf == ActPreimage(bindingHash, reviewedHash, evidence, rule)
  {
    buf := AppendFrames(Encode(ACT_FRAME), ActParts(bindingHash, reviewedHash, evidence, rule));
  }

  lemma StateNamesDiffer(a: Acknowledgement, b: Acknowledgement)
    requires Encode(StateName(a)) == Encode(StateName(b))
    ensures a == b
  {
    EncodeInjective(StateName(a), StateName(b));
    assert |StateName(a)| == |StateName(b)|;
  }

  /** The preimage determines the binding hash, the reviewed hash and both acknowledgement states. */
  lemma ActPreimageIsInjective(b1: Bytes, r1: Bytes, e1: Acknowledgement, u1: Acknowledgement,
                               b2: Bytes, r2: Bytes, e2: Acknowledgement, u2: Acknowledgement)
    requires ActPreimage(b1, r1, e1, u1) == ActPreimage(b2, r2, e2, u2)
    ensures b1 == b2 && r1 == r2 && e1 == e2 && u1 == u2
  {
    var p, q := ActParts(b1, r1, e1, u1), ActParts(b2, r2, e2, u2);
    var n := |Encode(ACT_FRAME)|;
    assert Frames(p) == ActPreimage(b1, r1, e1, u1)[n..] && Frames(q) == ActPreimage(b2, r2, e2, u2)[n..];
    FramesAreReadable(p, q);
    assert p[0] == q[0] && p[1] == q[1] && p[2] == q[2] && p[3] == q[3];
    StateNamesDiffer(e1, e2);
    StateNamesDiffer(u1, u2);
  }

  // -------------------------------------------------------------------- links

  datatype Link = Link(sequence: int, bindingHash: Bytes, actEvidenceHash: Bytes)

  function LinkBytes(l: Link): Bytes {
    Itoa(l.sequence) + [COLON] + (l.bindingHash + [COLON] + (l.actEvidenceHash + [END]))
  }

  function AllLinkBytes(links: seq<Link>): Bytes {
    if links == [] then [] else LinkBytes(links[0]) + AllLinkBytes(links[1..])
  }

  function Contribution(links: seq<Link>): Bytes {
    if links == [] then [] else Encode(LINKS_FRAME) + AllLinkBytes(links)
  }

  /** `fiscalLinksEnvelopeContribution`. */
  method LinksContribution(links: seq<Link>) returns (buf: Bytes)
    ensures buf == Contribution(links)
  {
    if |links| == 0 {
      return [];
    }
    buf := Encode(LINKS_FRAME);
    for i := 0 to |links|
      invariant buf + AllLinkBytes(links[i..]) == Contribution(links)
    {
      ghost var before := buf;
      buf := AppendLink(buf, links[i]);
      assert links[i..][1..] == links[i + 1..];
      Regroup(before, LinkBytes(links[i]), AllLinkBytes(links[i + 1..]));
    }
  }

  lemma Regroup(a: Bytes, b: Bytes, c: Bytes)
    ensures (a + b) + c == a + (b + c)
  {
  }

  method AppendLink(start: Bytes, link: Link) returns (buf: Bytes)
    ensures buf == start + LinkBytes(link)
  {
    buf := start;
    buf := buf + Itoa(link.sequence);
    buf := buf + [COLON];
    buf := buf + link.bindingHash;
    buf := buf + [COLON];
    buf := buf + link.actEvidenceHash;
    buf := buf + [END];
  }

  /** The binding hash holds no colon and the act-evidence hash no NUL; hexadecimal digests hold neither. */
  predicate Plain(l: Link) {
    COLON !in l.bindingHash && END !in l.actEvidenceHash
  }

  predicate Hexadecimal(b: Bytes) {
    forall i | 0 <= i < |b| :: 48 <= b[i] <= 57 || 97 <= b[i] <= 102
  }

  lemma HexadecimalIsPlain(l: Link)
    requires Hexadecimal(l.bindingHash) && Hexadecimal(l.actEvidenceHash)
    ensures Plain(l)
  {
  }

  lemma LinkIsReadable(a: Link, x: Bytes, b: Link, y: Bytes)
    requires Plain(a) && Plain(b) && LinkBytes(a) + x == LinkBytes(b) + y
    ensures a == b && x == y
  {
    var tailA, tailB := a.actEvidenceHash + [END] + x, b.actEvidenceHash + [END] + y;
    var restA, restB := a.bindingHash + [COLON] + tailA, b.bindingHash + [COLON] + tailB;
    assert LinkBytes(a) + x == Itoa(a.sequence) + [COLON] + restA;
    assert LinkBytes(b) + y == Itoa(b.sequence) + [COLON] + restB;
    ItoaHasNoMark(a.sequence, COLON);
    ItoaHasNoMark(b.sequence, COLON);
    SplitAtMark(Itoa(a.sequence), restA, Itoa(b.sequence), restB, COLON);
    ItoaInjective(a.sequence, b.sequence);
    SplitAtMark(a.bindingHash, tailA, b.bindingHash, tailB, COLON);
    SplitAtMark(a.actEvidenceHash, x, b.actEvidenceHash, y, END);
  }

  lemma LinkBytesNotEmpty(l: Link)
    ensures |LinkBytes(l)| > 0
  {
  }

  lemma {:induction false} LinksAreReadable(a: seq<Link>, b: seq<Link>)
    requires forall l | l in a || l in b :: Plain(l)
    requires AllLinkBytes(a) == AllLinkBytes(b)
    ensures a == b
  {
    if a != [] {
      LinkBytesNotEmpty(a[0]);
    }
    if b != [] {
      LinkBytesNotEmpty(b[0]);
    }
    if a != [] && b != [] {
      LinkIsReadable(a[0], AllLinkBytes(a[1..]), b[0], AllLinkBytes(b[1..]));
      LinksAreReadable(a[1..], b[1..]);
      assert a == [a[0]] + a[1..] && b == [b[0]] + b[1..];
    }
  }

  /** Equal contributions mean equal lists of links, and only the empty list contributes nothing. */
  lemma ContributionIsInjective(a: seq<Link>, b: seq<Link>)
    requires forall l | l in a || l in b :: Plain(l)
    requires Contribution(a) == Contribution(b)
    ensures a == b
  {
    assert Encode(LINKS_FRAME)[0] == EncodeChar(LINKS_FRAME[0])[0];
    if a != [] && b != [] {
      var n := |Encode(LINKS_FRAME)|;
      assert AllLinkBytes(a) == Contribution(a)[n..] && AllLinkBytes(b) == Contribution(b)[n..];
      LinksAreReadable(a, b);
    }
  }

  /** So it is for the links that the source stores, whose hashes are hexadecimal. */
  lemma HexadecimalContributionsAreInjective(a: seq<Link>, b: seq<Link>)
    requires forall l | l in a || l in b :: Hexadecimal(l.bindingHash) && Hexadecimal(l.actEvidenceHash)
    ensures Contribution(a) == Contribution(b) <==> a == b
  {
    if Contribution(a) == Contribution(b) {
      forall l | l in a || l in b ensures Plain(l) {
        HexadecimalIsPlain(l);
      }
      ContributionIsInjective(a, b);
    }
  }

  /** With a colon in a hash, two different lists contribute the same bytes. */
  lemma ColonsRunTogether(sequence: int, x: Bytes, y: Bytes, z: Bytes)
    ensures Contribution([Link(sequence, x + [COLON] + y, z)]) == Contribution([Link(sequence, x, y + [COLON] + z)])
  {
    var a, b := [Link(sequence, x + [COLON] + y, z)], [Link(sequence, x, y + [COLON] + z)];
    assert LinkBytes(a[0]) == LinkBytes(b[0]);
    assert a[1..] == [] && b[1..] == [];
  }
}
