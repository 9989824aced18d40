/** The no_state codes of a Motr HA note (ha/note.h), as HaNoteStruct lists them. */
module HaNote {
  const M0_NC_UNKNOWN: int := 0
  const M0_NC_ONLINE: int := 1
  const M0_NC_FAILED: int := 2
  const M0_NC_TRANSIENT: int := 3
  const M0_NC_REPAIR: int := 4
  const M0_NC_REPAIRED: int := 5
  const M0_NC_REBALANCE: int := 6
  const M0_NC_NR: int := 7
}

/**
 * The HA monitor's health of an object (ObjHealth) and its conversion to
 * and from the note state codes, and the m0HaObjState enumeration.
 */
module Health {
  import opened Wrappers
  import HaNote

  datatype ObjHealth = FAILED | OK | UNKNOWN | OFFLINE | STOPPED | REPAIR | REPAIRED | REBALANCE

  /** The members in declaration order, the order list(ObjHealth) yields them. */
  const Members: seq<ObjHealth> := [FAILED, OK, UNKNOWN, OFFLINE, STOPPED, REPAIR, REPAIRED, REBALANCE]

  /**
   * The enum value of a member: its position and its note state. The
   * position keeps OFFLINE and STOPPED, which share a note state, from
   * becoming aliases of one another.
   */
  function EnumValue(h: ObjHealth): (int, int)
  {
    match h
    case FAILED => (0, HaNote.M0_NC_FAILED)
    case OK => (1, HaNote.M0_NC_ONLINE)
    case UNKNOWN => (2, HaNote.M0_NC_UNKNOWN)
    case OFFLINE => (3, HaNote.M0_NC_TRANSIENT)
    case STOPPED => (4, HaNote.M0_NC_TRANSIENT)
    case REPAIR => (5, HaNote.M0_NC_REPAIR)
    case REPAIRED => (6, HaNote.M0_NC_REPAIRED)
    case REBALANCE => (7, HaNote.M0_NC_REBALANCE)
  }

  /** Every member has its own value, and Members lists each member once, at the index its value names. */
  lemma MembersAreDistinct(h: ObjHealth, g: ObjHealth)
    ensures EnumValue(h) == EnumValue(g) ==> h == g
    ensures |Members| == 8 && 0 <= EnumValue(h).0 < 8 && Members[EnumValue(h).0] == h
  {
  }

  /** The position in Members and the first component of the value agree. */
  lemma MemberPositions()
    ensures forall g :: 0 <= EnumValue(g).0 < |Members| && Members[EnumValue(g).0] == g
    ensures forall i :: 0 <= i < |Members| ==> EnumValue(Members[i]).0 == i
  {
    forall g ensures 0 <= EnumValue(g).0 < |Members| && Members[EnumValue(g).0] == g {
      MembersAreDistinct(g, g);
    }
  }

  /** ObjHealth.to_ha_note_status: the note state of the member. */
  function ToHaNoteStatus(h: ObjHealth): (code: int)
    ensures HaNote.M0_NC_UNKNOWN <= code <= HaNote.M0_NC_REBALANCE
  {
    EnumValue(h).1
  }

  /** Only OFFLINE and STOPPED share a note state. */
  lemma ToHaNoteStatusCollision(h: ObjHealth, g: ObjHealth)
    requires h != g && ToHaNoteStatus(h) == ToHaNoteStatus(g)
    ensures {h, g} == {OFFLINE, STOPPED}
  {
  }

  /**
   * The index of the first member of `members` whose note state is
   * `state`: the loop of from_ha_note_state returns on the first match.
   */
  function FirstWithNote(members: seq<ObjHealth>, state: int): (r: Option<nat>)
    ensures r.Some? ==> r.value < |members| && ToHaNoteStatus(members[r.value]) == state
    ensures r.Some? ==> forall j :: 0 <= j < r.value ==> ToHaNoteStatus(members[j]) != state
    ensures r.None? ==> forall j :: 0 <= j < |members| ==> ToHaNoteStatus(members[j]) != state
  {
    if |members| == 0 then None
    else if ToHaNoteStatus(members[0]) == state then Some(0)
    else
      match FirstWithNote(members[1..], state)
      case None => None
      case Some(i) => Some(i + 1)
  }

  /** ObjHealth.from_ha_note_state: the first member declared with that note state, else UNKNOWN. */
  function FromHaNoteState(state: int): (h: ObjHealth)
    ensures forall g :: ToHaNoteStatus(g) == state ==>
      ToHaNoteStatus(h) == state && EnumValue(h).0 <= EnumValue(g).0
    ensures (forall g :: ToHaNoteStatus(g) != state) ==> h == UNKNOWN
  {
    MemberPositions();
    match FirstWithNote(Members, state)
    case Some(i) => Members[i]
    case None => UNKNOWN
  }

  /**
   * from_ha_note_state as a table: each code 0..6 maps to its first
   * declared member (TRANSIENT to OFFLINE), every other integer to UNKNOWN.
   */
  lemma FromHaNoteStateTable(state: int)
    ensures FromHaNoteState(state) ==
      if state == HaNote.M0_NC_UNKNOWN then UNKNOWN
      else if state == HaNote.M0_NC_ONLINE then OK
      else if state == HaNote.M0_NC_FAILED then FAILED
      else if state == HaNote.M0_NC_TRANSIENT then OFFLINE
      else if state == HaNote.M0_NC_REPAIR then REPAIR
      else if state == HaNote.M0_NC_REPAIRED then REPAIRED
      else if state == HaNote.M0_NC_REBALANCE then REBALANCE
      else UNKNOWN
  {
    var r := FirstWithNote(Members, state);
    if r.Some? {
      var i := r.value;
      assert ToHaNoteStatus(Members[i]) == state;
      if state == HaNote.M0_NC_TRANSIENT {
        assert ToHaNoteStatus(Members[3]) == state;
        assert i == 3;
      }
    } else {
      assert forall j :: 0 <= j < |Members| ==> ToHaNoteStatus(Members[j]) != state;
      assert ToHaNoteStatus(Members[0]) != state;
      assert ToHaNoteStatus(Members[1]) != state;
      assert ToHaNoteStatus(Members[2]) != state;
      assert ToHaNoteStatus(Members[3]) != state;
      assert ToHaNoteStatus(Members[5]) != state;
      assert ToHaNoteStatus(Members[6]) != state;
      assert ToHaNoteStatus(Members[7]) != state;
    }
  }

  /**
   * Health to note state and back is the identity, except that STOPPED
   * comes back as OFFLINE, which is declared first with the same state.
   */
  lemma HealthRoundTrip(h: ObjHealth)
    ensures FromHaNoteState(ToHaNoteStatus(h)) == if h == STOPPED then OFFLINE else h
  {
    FromHaNoteStateTable(ToHaNoteStatus(h));
  }

  /** Note state to health and back is the identity on the codes 0..6, the only ones any member carries. */
  lemma NoteStateRoundTrip(state: int)
    ensures HaNote.M0_NC_UNKNOWN <= state <= HaNote.M0_NC_REBALANCE <==>
            ToHaNoteStatus(FromHaNoteState(state)) == state
  {
    FromHaNoteStateTable(state);
  }

  /** m0HaObjState: the note states as an IntEnum. It declares no member for M0_NC_REPAIR. */
  datatype ObjState =
    | M0_NC_UNKNOWN | M0_NC_ONLINE | M0_NC_FAILED | M0_NC_TRANSIENT | M0_NC_REPAIRED | M0_NC_REBALANCE | M0_NC_NR

  function ObjStateValue(s: ObjState): int
  {
    match s
    case M0_NC_UNKNOWN => HaNote.M0_NC_UNKNOWN
    case M0_NC_ONLINE => HaNote.M0_NC_ONLINE
    case M0_NC_FAILED => HaNote.M0_NC_FAILED
    case M0_NC_TRANSIENT => HaNote.M0_NC_TRANSIENT
    case M0_NC_REPAIRED => HaNote.M0_NC_REPAIRED
    case M0_NC_REBALANCE => HaNote.M0_NC_REBALANCE
    case M0_NC_NR => HaNote.M0_NC_NR
  }

  /** The member name, as m0HaObjState.parse expects it. */
  function ObjStateName(s: ObjState): string
  {
    match s
    case M0_NC_UNKNOWN => "M0_NC_UNKNOWN"
    case M0_NC_ONLINE => "M0_NC_ONLINE"
    case M0_NC_FAILED => "M0_NC_FAILED"
    case M0_NC_TRANSIENT => "M0_NC_TRANSIENT"
    case M0_NC_REPAIRED => "M0_NC_REPAIRED"
    case M0_NC_REBALANCE => "M0_NC_REBALANCE"
    case M0_NC_NR => "M0_NC_NR"
  }

  const ObjStatesByName: map<string, ObjState> := map[
    "M0_NC_UNKNOWN" := M0_NC_UNKNOWN,
    "M0_NC_ONLINE" := M0_NC_ONLINE,
    "M0_NC_FAILED" := M0_NC_FAILED,
    "M0_NC_TRANSIENT" := M0_NC_TRANSIENT,
    "M0_NC_REPAIRED" := M0_NC_REPAIRED,
    "M0_NC_REBALANCE" := M0_NC_REBALANCE,
    "M0_NC_NR" := M0_NC_NR]

  /** m0HaObjState.parse: a strict dictionary lookup that raises KeyError on an unknown name. */
  function ParseObjState(state: string): (r: Result<ObjState, KeyError>)
    ensures r.Success? ==> ObjStateName(r.value) == state
    ensures r.Failure? ==> r.error == KeyError(state) && forall s :: ObjStateName(s) != state
  {
    if state in ObjStatesByName then Success(ObjStatesByName[state]) else Failure(KeyError(state))
  }

  /** Every member is found under its own name, and "M0_NC_REPAIR" under none. */
  lemma ParseObjStateName(s: ObjState)
    ensures ParseObjState(ObjStateName(s)) == Success(s)
    ensures ParseObjState("M0_NC_REPAIR").Failure?
  {
  }

  /**
   * The note states of m0HaObjState read as a health and back unchanged,
   * except M0_NC_NR, the count of states, which reads as UNKNOWN.
   */
  lemma ObjStateAsHealth(s: ObjState)
    ensures s != M0_NC_NR ==> ToHaNoteStatus(FromHaNoteState(ObjStateValue(s))) == ObjStateValue(s)
    ensures FromHaNoteState(ObjStateValue(M0_NC_NR)) == UNKNOWN
  {
    NoteStateRoundTrip(ObjStateValue(s));
    FromHaNoteStateTable(HaNote.M0_NC_NR);
  }
}
