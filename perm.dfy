/** Permission flags (pkg/access_control/models/models.go).
    PERM is a Go `int`, a 64-bit two's-complement integer, so a mask is a
    `bv64`: `&` and `|` then have exactly the source's meaning for every
    value a caller can pass, negative ones included. */
module Perm {

  type Mask = bv64

  const READ: Mask := 1
  const WRITE: Mask := 2
  const SHARE: Mask := 4

  const READ_TEXT := "Read access to document"
  const WRITE_TEXT := "Write access to document"
  const UNKNOWN_TEXT := "Unknown permission type"

  /** PERM.String: only the two exact masks READ and WRITE have a name. */
  function Describe(p: Mask): (text: string)
    ensures text in {READ_TEXT, WRITE_TEXT, UNKNOWN_TEXT}
    ensures text == READ_TEXT ==> p == READ
    ensures text == WRITE_TEXT ==> p == WRITE
  {
    if p == READ then READ_TEXT
    else if p == WRITE then WRITE_TEXT
    else UNKNOWN_TEXT
  }

  /** The three capabilities a mask can carry. */
  datatype Capability = Read | Write | Share

  function Flag(c: Capability): Mask
  {
    match c
    case Read => READ
    case Write => WRITE
    case Share => SHARE
  }

  predicate Has(p: Mask, c: Capability)
  {
    p & Flag(c) != 0
  }

  /** The capabilities whose flag bit is set in `p`. */
  function Capabilities(p: Mask): set<Capability>
  {
    (if Has(p, Read) then {Read} else {})
    + (if Has(p, Write) then {Write} else {})
    + (if Has(p, Share) then {Share} else {})
  }

  /** The mask that carries exactly the capabilities `cs`. */
  function MaskOf(cs: set<Capability>): (p: Mask)
    ensures IsFlagMask(p)
  {
    (if Read in cs then READ else 0)
    | (if Write in cs then WRITE else 0)
    | (if Share in cs then SHARE else 0)
  }

  /** A mask with no bit outside the three flags. */
  predicate IsFlagMask(p: Mask)
  {
    p & !7 == 0
  }

  /** The flags are distinct single bits. */
  lemma FlagsAreDistinctBits(c: Capability, d: Capability)
    ensures Flag(c) != 0 && Flag(c) & (Flag(c) - 1) == 0
    ensures c != d ==> Flag(c) & Flag(d) == 0
  {
  }

  /** OR-ing masks is the union of their capability sets. */
  lemma UnionIsOr(p: Mask, q: Mask)
    ensures Capabilities(p | q) == Capabilities(p) + Capabilities(q)
  {
  }

  /** AND-ing masks is the intersection of their capability sets. */
  lemma IntersectionIsAnd(p: Mask, q: Mask)
    ensures Capabilities(p & q) == Capabilities(p) * Capabilities(q)
  {
  }

  /** Building a mask from a capability set and reading it back gives the set. */
  lemma CapabilitiesOfMaskOf(cs: set<Capability>)
    ensures Capabilities(MaskOf(cs)) == cs
  {
    forall c: Capability
      ensures c in Capabilities(MaskOf(cs)) <==> c in cs
    {
      match c
      case Read =>
      case Write =>
      case Share =>
    }
  }

  /** A mask made only of flags is determined by its capabilities. */
  lemma MaskOfCapabilities(p: Mask)
    requires IsFlagMask(p)
    ensures MaskOf(Capabilities(p)) == p
  {
  }

  /** Only the exact masks READ and WRITE are named; every other value,
      SHARE, 0 and every combination included, is unknown. */
  lemma DescribeNamesOnlyReadAndWrite(p: Mask)
    ensures Describe(p) == READ_TEXT <==> p == READ
    ensures Describe(p) == WRITE_TEXT <==> p == WRITE
    ensures Describe(p) == UNKNOWN_TEXT <==> p != READ && p != WRITE
  {
  }

  /** A mask that contains SHARE is never 1 or 2, so it is always unknown. */
  lemma ShareMasksAreUnknown(p: Mask)
    ensures Describe(SHARE | p) == UNKNOWN_TEXT
  {
  }
}
