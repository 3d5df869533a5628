/**
 Which certificate checks a time stamp reply. The parser looks through the linked list of certificates
 in the reply for the one whose digest the signer information names, moves it to the head in place, and
 verifies the signature with its key; the processor then checks the head of the list against its trust chain.
 */
module Signer {
  import opened Bytes

  /** A certificate as the parser links it: its encoding, its public key, and the next one. */
  class Cert {
    const raw: seq<byte>
    const pk: nat
    var next: Cert?

    constructor (raw: seq<byte>, pk: nat, next: Cert?)
      ensures this.raw == raw && this.pk == pk && this.next == next
    {
      this.raw, this.pk, this.next := raw, pk, next;
    }
  }

  /** What the cryptographic library computes: digests by type, their sizes, and signature checks by key. */
  datatype Crypto = Crypto(md: (nat, seq<byte>) -> seq<byte>, size: nat -> nat,
                           verifies: (nat, nat, seq<byte>, seq<byte>) -> bool)

  /** What the reply's signer information holds. */
  datatype SignerInfo = SignerInfo(certHash: Option<seq<byte>>, certHashType: nat,
                                   attributes: Option<seq<byte>>, digest: Option<seq<byte>>, digestType: nat,
                                   sig: seq<byte>)

  /** The certificate after the `i`-th. */
  ghost function Following(cs: seq<Cert>, i: nat): Cert?
    requires i < |cs|
  {
    if i + 1 < |cs| then cs[i + 1] else null
  }

  /** `cs` are the certificates from `head` on, in order, each once: the list is acyclic. */
  ghost predicate Linked(head: Cert?, cs: seq<Cert>)
    reads cs
  {
    && (forall i, j :: 0 <= i < j < |cs| ==> cs[i] != cs[j])
    && head == (if cs == [] then null else cs[0])
    && forall i :: 0 <= i < |cs| ==> cs[i].next == Following(cs, i)
  }

  predicate Matches(c: Crypto, t: nat, hash: seq<byte>, cert: Cert) {
    c.md(t, cert.raw) == hash
  }

  /** The first certificate with that digest. */
  function FirstMatch(c: Crypto, t: nat, hash: seq<byte>, cs: seq<Cert>): (r: Option<nat>)
    ensures r.Some? ==> r.value < |cs| && Matches(c, t, hash, cs[r.value])
    ensures r.Some? ==> forall i :: 0 <= i < r.value ==> !Matches(c, t, hash, cs[i])
    ensures r.None? ==> forall i :: 0 <= i < |cs| ==> !Matches(c, t, hash, cs[i])
  {
    if cs == [] then None
    else if Matches(c, t, hash, cs[0]) then Some(0)
    else
      match FirstMatch(c, t, hash, cs[1..])
      case None => None
      case Some(i) => Some(i + 1)
  }

  lemma FirstMatchIs(c: Crypto, t: nat, hash: seq<byte>, cs: seq<Cert>, i: nat)
    requires i < |cs| && Matches(c, t, hash, cs[i]) && forall j :: 0 <= j < i ==> !Matches(c, t, hash, cs[j])
    ensures FirstMatch(c, t, hash, cs) == Some(i)
  {
  }

  /** The list with its `i`-th element in front and the others in their old order. */
  function MoveToFront<T>(cs: seq<T>, i: nat): (r: seq<T>)
    requires i < |cs|
  {
    [cs[i]] + cs[..i] + cs[i + 1..]
  }

  /** Moving to the front loses nothing, adds nothing, and keeps the order of the rest. */
  lemma MoveKeeps<T>(cs: seq<T>, i: nat)
    requires i < |cs|
    ensures multiset(MoveToFront(cs, i)) == multiset(cs)
    ensures MoveToFront(cs, i)[0] == cs[i] && MoveToFront(cs, i)[1..] == cs[..i] + cs[i + 1..]
  {
    assert cs == cs[..i] + ([cs[i]] + cs[i + 1..]);
  }

  /** Who is where after the move, and who follows. */
  lemma MovedAt(cs: seq<Cert>, i: nat, j: nat)
    requires 0 < i < |cs| && j < |cs|
    ensures var moved := MoveToFront(cs, i);
      && |moved| == |cs|
      && moved[j] == cs[if j == 0 then i else if j <= i then j - 1 else j]
      && Following(moved, j) == if j == 0 then cs[0] else if j < i then cs[j] else Following(cs, j)
  {
  }

  lemma MovedApart(cs: seq<Cert>, i: nat)
    requires i < |cs| && forall j, k :: 0 <= j < k < |cs| ==> cs[j] != cs[k]
    ensures forall j, k :: 0 <= j < k < |cs| ==> MoveToFront(cs, i)[j] != MoveToFront(cs, i)[k]
  {
  }

  /**
   The search and the relinking. The certificate found is the first match and becomes the head of the
   list; without a match the list stays and there is no certificate.
   */
  method SelectSigner(c: Crypto, t: nat, hash: seq<byte>, chain: Cert?, ghost cs: seq<Cert>)
      returns (head: Cert?, crt: Cert?)
    requires Linked(chain, cs)
    modifies cs
    ensures match FirstMatch(c, t, hash, cs)
            case None => crt == null && head == chain && Linked(head, cs)
            case Some(i) => crt == cs[i] && head == cs[i] && Linked(head, MoveToFront(cs, i))
  {
    head, crt := chain, chain;
    ghost var i := 0;
    while crt != null
      invariant i <= |cs| && crt == (if i < |cs| then cs[i] else null)
      invariant forall j :: 0 <= j < i ==> !Matches(c, t, hash, cs[j])
      invariant head == chain && Linked(chain, cs)
      decreases |cs| - i
    {
      if Matches(c, t, hash, crt) {
        FirstMatchIs(c, t, hash, cs, i);
        if head != crt {
          head := Relink(head, crt, cs, i);
        } else {
          assert MoveToFront(cs, 0) == cs;
        }
        return;
      }
      assert cs[i].next == Following(cs, i);
      crt := crt.next;
      i := i + 1;
    }
  }

  /** Unhooks a certificate that is not the head from its parent and puts it in front. */
  method Relink(chain: Cert, crt: Cert, ghost cs: seq<Cert>, ghost i: nat) returns (head: Cert)
    requires Linked(chain, cs) && 0 < i < |cs| && crt == cs[i]
    modifies cs
    ensures head == crt && Linked(head, MoveToFront(cs, i))
  {
    var parent := chain;
    ghost var k := 0;
    while parent.next != crt
      invariant k < i && parent == cs[k]
      decreases i - k
    {
      assert cs[k].next == Following(cs, k);
      parent := parent.next;
      k := k + 1;
    }
    assert cs[k].next == Following(cs, k) && cs[i].next == Following(cs, i);
    assert k + 1 == i;
    label Found:
    parent.next := crt.next;
    crt.next := chain;
    head := crt;
    ghost var moved := MoveToFront(cs, i);
    forall j | 0 <= j < |moved|
      ensures moved[j].next == Following(moved, j)
    {
      MovedAt(cs, i, j);
      if 0 < j < i {
        assert old@Found(cs[j - 1].next) == Following(cs, j - 1);
      } else if j > i {
        assert old@Found(cs[j].next) == Following(cs, j);
      }
    }
    MovedApart(cs, i);
  }

  /** No digest type. */
  const MD_NONE := 0

  /** The tag the signed attributes are digested with, in place of the one they are sent with (RFC 5652 section 5.4). */
  const SET_TAG: byte := 0x31

  /**
   The digest the signature must be over. Signed attributes must name the digest of the content, and
   are then what is signed; without them the content itself is.
   */
  function SignedDigest(c: Crypto, info: SignerInfo, content: seq<byte>, t: nat): Option<seq<byte>>
    requires info.attributes.Some? ==> info.attributes.value != []
  {
    if info.attributes.Some? && info.digest.Some? then
      if |info.digest.value| != c.size(t) || info.digestType != t || t == MD_NONE
         || c.md(t, content) != info.digest.value
      then None
      else Some(c.md(info.digestType, [SET_TAG] + info.attributes.value[1..]))
    else Some(c.md(t, content))
  }

  /** The reply is accepted or refused, or the key is looked up although no certificate was found. */
  datatype Verdict = Accepted | Refused | NoKey

  /** What the reply should come to, from the certificates as they were sent. */
  function Judge(c: Crypto, info: SignerInfo, content: seq<byte>, t: nat, cs: seq<Cert>): Verdict
    requires info.attributes.Some? ==> info.attributes.value != []
  {
    if info.certHash.Some? && |info.certHash.value| != c.size(info.certHashType) then Refused
    else
      var signed := SignedDigest(c, info, content, t);
      var signer := if info.certHash.None? then None else FirstMatch(c, info.certHashType, info.certHash.value, cs);
      if signed.None? then Refused
      else if signer.None? then NoKey
      else if c.verifies(cs[signer.value].pk, t, signed.value, info.sig) then Accepted
      else Refused
  }

  /**
   The end of the reply parser. When it accepts, the head of the list it leaves, which is the
   certificate checked against the trust chain next, is the one whose key verified the signature.
   */
  method VerifyReply(c: Crypto, info: SignerInfo, content: seq<byte>, t: nat, chain: Cert?, ghost cs: seq<Cert>)
      returns (v: Verdict, head: Cert?)
    requires Linked(chain, cs)
    requires info.attributes.Some? ==> info.attributes.value != []
    modifies cs
    ensures v == Judge(c, info, content, t, cs)
    ensures v == Accepted ==>
              && head != null && info.certHash.Some? && Matches(c, info.certHashType, info.certHash.value, head)
              && SignedDigest(c, info, content, t).Some?
              && c.verifies(head.pk, t, SignedDigest(c, info, content, t).value, info.sig)
    ensures v == Accepted ==>
              exists i :: 0 <= i < |cs| && head == cs[i] && Linked(head, MoveToFront(cs, i))
    ensures exists list :: multiset(list) == multiset(cs) && Linked(head, list)
  {
    head := chain;
    assert Linked(head, cs);
    var crt: Cert? := null;
    if info.certHash.Some? {
      if |info.certHash.value| != c.size(info.certHashType) {
        return Refused, head;
      }
      ghost var found := FirstMatch(c, info.certHashType, info.certHash.value, cs);
      head, crt := SelectSigner(c, info.certHashType, info.certHash.value, chain, cs);
      if found.Some? {
        MoveKeeps(cs, found.value);
      }
    }
    var digest := c.md(t, content);
    if info.attributes.Some? && info.digest.Some? {
      if |info.digest.value| != c.size(t) {
        return Refused, head;
      }
      if info.digestType != t || t == MD_NONE {
        return Refused, head;
      }
      if digest != info.digest.value {
        return Refused, head;
      }
      digest := c.md(info.digestType, [SET_TAG] + info.attributes.value[1..]);
    }
    if crt == null {
      return NoKey, head;
    }
    v := if c.verifies(crt.pk, t, digest, info.sig) then Accepted else Refused;
  }
}
