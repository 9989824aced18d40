/**
 * The Motr conf object types the HA monitor tracks, each bound to the
 * f_container value that fids of that type carry.
 */
module ObjTypes {
  import opened Wrappers

  datatype ObjT =
    | PROCESS | SERVICE | SDEV | DRIVE | PROFILE | OBJV | NODE | SITE
    | RACK | ENCLOSURE | CONTROLLER | ROOT | POOL | PVER | FDMI_FILTER | FDMI_FLT_GRP

  /** The members in declaration order. */
  const AllObjT: seq<ObjT> := [
    PROCESS, SERVICE, SDEV, DRIVE, PROFILE, OBJV, NODE, SITE,
    RACK, ENCLOSURE, CONTROLLER, ROOT, POOL, PVER, FDMI_FILTER, FDMI_FLT_GRP]

  /** 2^56: the container's top byte names the type, the lower 56 bits hold 1. */
  const TypeShift: nat := 0x100000000000000

  /**
   * ObjT(t).value: the f_container constant of the type, the type letter
   * in the top byte with 1 in the lower 56 bits, within 64 bits.
   */
  function Container(t: ObjT): (c: nat)
    ensures c == TypeLetter(t) as nat * TypeShift + 1
    ensures c % TypeShift == 1 && c / TypeShift == TypeLetter(t) as nat
    ensures c < 0x1_0000_0000_0000_0000
  {
    match t
    case PROCESS => 0x7200000000000001
    case SERVICE => 0x7300000000000001
    case SDEV => 0x6400000000000001
    case DRIVE => 0x6b00000000000001
    case PROFILE => 0x7000000000000001
    case OBJV => 0x6a00000000000001
    case NODE => 0x6e00000000000001
    case SITE => 0x5300000000000001
    case RACK => 0x6100000000000001
    case ENCLOSURE => 0x6500000000000001
    case CONTROLLER => 0x6300000000000001
    case ROOT => 0x7400000000000001
    case POOL => 0x6f00000000000001
    case PVER => 0x7600000000000001
    case FDMI_FILTER => 0x6c00000000000001
    case FDMI_FLT_GRP => 0x6700000000000001
  }

  /** The Motr fid type letter of each type, which the container's top byte encodes. */
  function TypeLetter(t: ObjT): char
  {
    match t
    case PROCESS => 'r'
    case SERVICE => 's'
    case SDEV => 'd'
    case DRIVE => 'k'
    case PROFILE => 'p'
    case OBJV => 'j'
    case NODE => 'n'
    case SITE => 'S'
    case RACK => 'a'
    case ENCLOSURE => 'e'
    case CONTROLLER => 'c'
    case ROOT => 't'
    case POOL => 'o'
    case PVER => 'v'
    case FDMI_FILTER => 'l'
    case FDMI_FLT_GRP => 'g'
  }

  /** ObjT(c), the lookup by value: the type whose container is c, if any. */
  function FromContainer(c: nat): (r: Option<ObjT>)
    ensures r.Some? ==> Container(r.value) == c
  {
    if c == 0x7200000000000001 then Some(PROCESS)
    else if c == 0x7300000000000001 then Some(SERVICE)
    else if c == 0x6400000000000001 then Some(SDEV)
    else if c == 0x6b00000000000001 then Some(DRIVE)
    else if c == 0x7000000000000001 then Some(PROFILE)
    else if c == 0x6a00000000000001 then Some(OBJV)
    else if c == 0x6e00000000000001 then Some(NODE)
    else if c == 0x5300000000000001 then Some(SITE)
    else if c == 0x6100000000000001 then Some(RACK)
    else if c == 0x6500000000000001 then Some(ENCLOSURE)
    else if c == 0x6300000000000001 then Some(CONTROLLER)
    else if c == 0x7400000000000001 then Some(ROOT)
    else if c == 0x6f00000000000001 then Some(POOL)
    else if c == 0x7600000000000001 then Some(PVER)
    else if c == 0x6c00000000000001 then Some(FDMI_FILTER)
    else if c == 0x6700000000000001 then Some(FDMI_FLT_GRP)
    else None
  }

  /** The lookup by value inverts Container, so no two types share a container. */
  lemma FromContainerInverts(t: ObjT)
    ensures FromContainer(Container(t)) == Some(t)
  {
  }

  lemma ContainerInjective(a: ObjT, b: ObjT)
    requires Container(a) == Container(b)
    ensures a == b
  {
    FromContainerInverts(a);
    FromContainerInverts(b);
  }

  /** The declared list holds each type exactly once. */
  lemma AllObjTComplete(t: ObjT)
    ensures t in AllObjT
    ensures |AllObjT| == 16
    ensures forall i, j :: 0 <= i < j < |AllObjT| ==> Container(AllObjT[i]) != Container(AllObjT[j])
  {
  }
}
