/** The session and channel words of the function-chain registers. */
module ChainWords {
  import opened Bits
  import opened Packing

  const CID_MAX: nat := 511
  const FCHID_MAX: nat := 511

  // The driver masks the one-bit fields. It does not mask cid and fchid, which are bounded by a
  // range check and by the table size, so masking them to nine bits changes nothing.

  /** cid, external interface */
  const SESSION: seq<Piece> := [Piece(0, 0, 0, 9), Piece(1, 0, 9, 1)]

  /** fchid, enable, active, direct */
  const INGRESS_CHANNEL: seq<Piece> := [Piece(0, 0, 0, 9), Piece(1, 0, 16, 1), Piece(2, 0, 17, 1), Piece(3, 0, 18, 1)]

  /** cid, external interface, enable, active, virtual, blocking */
  const EGRESS_SESSION: seq<Piece> := [
    Piece(0, 0, 0, 9), Piece(1, 0, 9, 1), Piece(2, 0, 16, 1), Piece(3, 0, 17, 1),
    Piece(4, 0, 19, 1), Piece(5, 0, 20, 1)]

  function SessionWord(extif: nat, cid: nat): nat {
    Pack(SESSION, [cid, extif])
  }

  function IngressWord(fchid: nat, enable: nat, active: nat, direct: nat): nat {
    Pack(INGRESS_CHANNEL, [fchid, enable, active, direct])
  }

  function EgressWord(extif: nat, cid: nat, enable: nat, active: nat, virt: nat, blocking: nat): nat {
    Pack(EGRESS_SESSION, [cid, extif, enable, active, virt, blocking])
  }

  lemma Masks()
    ensures Mask(9) == 511 && Mask(1) == 1
  {
  }

  lemma SessionDecodes(extif: nat, cid: nat)
    requires extif <= 1 && cid <= CID_MAX
    ensures Unpack(SESSION, SessionWord(extif, cid), 0) == cid
    ensures Unpack(SESSION, SessionWord(extif, cid), 1) == extif
  {
    Masks();
    RoundTripOnce(SESSION, [cid, extif], 0);
    RoundTripOnce(SESSION, [cid, extif], 1);
    AndMaskSmall(cid, 9);
    AndMaskSmall(extif, 1);
  }

  /** The session word determines the interface and the connection id. */
  lemma SessionInjective(extif: nat, cid: nat, extif': nat, cid': nat)
    requires extif <= 1 && cid <= CID_MAX && extif' <= 1 && cid' <= CID_MAX
    requires SessionWord(extif, cid) == SessionWord(extif', cid')
    ensures extif == extif' && cid == cid'
  {
    SessionDecodes(extif, cid);
    SessionDecodes(extif', cid');
  }

  /** Reading an ingress channel word back gives the fchid and the low bit of each flag. */
  lemma IngressDecodes(fchid: nat, enable: nat, active: nat, direct: nat)
    requires fchid <= FCHID_MAX
    ensures var w := IngressWord(fchid, enable, active, direct);
            && Unpack(INGRESS_CHANNEL, w, 0) == fchid
            && Unpack(INGRESS_CHANNEL, w, 1) == And(enable, 1)
            && Unpack(INGRESS_CHANNEL, w, 2) == And(active, 1)
            && Unpack(INGRESS_CHANNEL, w, 3) == And(direct, 1)
  {
    Masks();
    var values: seq<nat> := [fchid, enable, active, direct];
    forall k: nat | k < 4
      ensures Unpack(INGRESS_CHANNEL, Pack(INGRESS_CHANNEL, values), k) == And(values[k], if k == 0 then 511 else 1)
    {
      RoundTripOnce(INGRESS_CHANNEL, values, k);
    }
    AndMaskSmall(fchid, 9);
  }

  /** Reading an egress session word back gives interface, cid and the low bit of each flag. */
  lemma EgressDecodes(extif: nat, cid: nat, enable: nat, active: nat, virt: nat, blocking: nat)
    requires extif <= 1 && cid <= CID_MAX
    ensures var w := EgressWord(extif, cid, enable, active, virt, blocking);
            && Unpack(EGRESS_SESSION, w, 0) == cid
            && Unpack(EGRESS_SESSION, w, 1) == extif
            && Unpack(EGRESS_SESSION, w, 2) == And(enable, 1)
            && Unpack(EGRESS_SESSION, w, 3) == And(active, 1)
            && Unpack(EGRESS_SESSION, w, 4) == And(virt, 1)
            && Unpack(EGRESS_SESSION, w, 5) == And(blocking, 1)
  {
    Masks();
    var values: seq<nat> := [cid, extif, enable, active, virt, blocking];
    forall k: nat | k < 6
      ensures Unpack(EGRESS_SESSION, Pack(EGRESS_SESSION, values), k) == And(values[k], if k == 0 then 511 else 1)
    {
      RoundTripOnce(EGRESS_SESSION, values, k);
    }
    AndMaskSmall(cid, 9);
    AndMaskSmall(extif, 1);
  }
}
