/**
 * Detached-signature verification that honours self-revocations (services/terrapod/gpg_verify.py), over an OpenPGP
 * library of which only the answers, and the exceptions, are known.
 */
module GpgVerify {
  import opened Text

  /** What a library call does. */
  datatype Answer<+T> = Gives(value: T) | Throws

  /**
   * One step of enumerating the revocation signatures: whether the packet is a KeyRevocation, unless the enumeration or
   * the reading of the type throws there, and whether the key verifies it on itself.
   */
  datatype Packet = Packet(isKeyRevocation: Answer<bool>, selfVerifies: Answer<bool>)

  datatype Key = Key(packets: seq<Packet>, verifies: (Bytes, Bytes) -> Answer<bool>, parses: Bytes -> bool)

  predicate SelfRevokes(p: Packet) {
    p.isKeyRevocation == Gives(true) && p.selfVerifies == Gives(true)
  }

  /** A self-revocation that no unreadable packet precedes. */
  predicate Revoked(k: Key) {
    exists i :: && 0 <= i < |k.packets| && SelfRevokes(k.packets[i])
                && forall j :: 0 <= j < i ==> !k.packets[j].isKeyRevocation.Throws?
  }

  method IsRevoked(k: Key) returns (r: bool)
    ensures r <==> Revoked(k)
  {
    for i := 0 to |k.packets|
      invariant forall j :: 0 <= j < i ==> !k.packets[j].isKeyRevocation.Throws? && !SelfRevokes(k.packets[j])
    {
      var p := k.packets[i];
      match p.isKeyRevocation {
        case Throws => return false;            // the outer handler
        case Gives(ours) =>
          if ours {
            match p.selfVerifies {
              case Throws =>                    // the inner handler goes on to the next packet
              case Gives(valid) => if valid { return true; }
            }
          }
      }
    }
    return false;
  }

  method VerifyDetached(k: Key, manifest: Bytes, signature: Bytes) returns (ok: bool)
    ensures ok <==> Verified(k, manifest, signature)
  {
    var revoked := IsRevoked(k);
    if revoked { return false; }
    if !k.parses(signature) { return false; }
    match k.verifies(manifest, signature) {
      case Throws => return false;
      case Gives(valid) => return valid;
    }
  }

  predicate Verified(k: Key, manifest: Bytes, signature: Bytes) {
    !Revoked(k) && k.parses(signature) && k.verifies(manifest, signature) == Gives(true)
  }

  /** Forged packets, even ones whose verification throws, do not hide a revocation behind them. */
  lemma ForgeriesDoNotHide(k: Key, i: nat)
    requires i < |k.packets| && SelfRevokes(k.packets[i])
    requires forall j :: 0 <= j < |k.packets| ==> !k.packets[j].isKeyRevocation.Throws?
    ensures forall m, s :: !Verified(k, m, s)
  {
  }

  /** The index of the first packet that verifies as the key's own revocation, or the number of packets. */
  function FirstSelfRevocation(ps: seq<Packet>, n: nat): (f: nat)
    requires n <= |ps| && forall j :: 0 <= j < n ==> !SelfRevokes(ps[j])
    ensures n <= f <= |ps| && (f < |ps| ==> SelfRevokes(ps[f])) && forall j :: 0 <= j < f ==> !SelfRevokes(ps[j])
    decreases |ps| - n
  {
    if n == |ps| || SelfRevokes(ps[n]) then n else FirstSelfRevocation(ps, n + 1)
  }

  /** The key carries a genuine self-revocation. */
  predicate SelfRevoked(k: Key) {
    exists i :: 0 <= i < |k.packets| && SelfRevokes(k.packets[i])
  }

  /** Reading some packet throws before the first genuine self-revocation is reached. */
  predicate Hidden(k: Key) {
    var f := FirstSelfRevocation(k.packets, 0);
    f < |k.packets| && exists u :: 0 <= u < f && k.packets[u].isKeyRevocation.Throws?
  }

  /**
   * "A genuine self-revocation always trips it, and nothing else does": the second half holds of every key, the first
   * exactly of those in which no packet throws before the first self-revocation.
   */
  lemma RevocationTripsExactly(k: Key)
    ensures Revoked(k) ==> SelfRevoked(k)
    ensures (SelfRevoked(k) ==> Revoked(k)) <==> !Hidden(k)
  {
    var f := FirstSelfRevocation(k.packets, 0);
    if Revoked(k) {
      var i :| && 0 <= i < |k.packets| && SelfRevokes(k.packets[i])
               && forall j :: 0 <= j < i ==> !k.packets[j].isKeyRevocation.Throws?;
      assert f <= i;
    }
  }

  /** A key that revoked itself and is believed: an unreadable packet stands before the revocation. */
  lemma MissedRevocation(manifest: Bytes, signature: Bytes) returns (k: Key)
    ensures SelfRevoked(k) && !Revoked(k) && Verified(k, manifest, signature)
  {
    k := Key([Packet(Throws, Throws), Packet(Gives(true), Gives(true))],
             (m: Bytes, s: Bytes) => Gives(true), (s: Bytes) => true);
    assert SelfRevokes(k.packets[1]) && !SelfRevokes(k.packets[0]) && k.packets[0].isKeyRevocation.Throws?;
  }
}
