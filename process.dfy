/**
 * Process lifecycle events and process kinds (m0HaProcessEvent,
 * m0HaProcessType): strict lookups by name and the event-to-health table.
 */
module ProcessLifecycle {
  import opened Wrappers
  import opened Health
  import HaNote

  datatype ProcessEvent =
    | M0_CONF_HA_PROCESS_STARTING
    | M0_CONF_HA_PROCESS_STARTED
    | M0_CONF_HA_PROCESS_STOPPING
    | M0_CONF_HA_PROCESS_STOPPED

  /** The IntEnum value of an event. */
  function EventValue(e: ProcessEvent): int
  {
    match e
    case M0_CONF_HA_PROCESS_STARTING => 0
    case M0_CONF_HA_PROCESS_STARTED => 1
    case M0_CONF_HA_PROCESS_STOPPING => 2
    case M0_CONF_HA_PROCESS_STOPPED => 3
  }

  /** The member name, which __repr__ prints and str_to_Enum expects. */
  function EventName(e: ProcessEvent): string
  {
    match e
    case M0_CONF_HA_PROCESS_STARTING => "M0_CONF_HA_PROCESS_STARTING"
    case M0_CONF_HA_PROCESS_STARTED => "M0_CONF_HA_PROCESS_STARTED"
    case M0_CONF_HA_PROCESS_STOPPING => "M0_CONF_HA_PROCESS_STOPPING"
    case M0_CONF_HA_PROCESS_STOPPED => "M0_CONF_HA_PROCESS_STOPPED"
  }

  const EventsByName: map<string, ProcessEvent> := map[
    "M0_CONF_HA_PROCESS_STARTING" := M0_CONF_HA_PROCESS_STARTING,
    "M0_CONF_HA_PROCESS_STARTED" := M0_CONF_HA_PROCESS_STARTED,
    "M0_CONF_HA_PROCESS_STOPPING" := M0_CONF_HA_PROCESS_STOPPING,
    "M0_CONF_HA_PROCESS_STOPPED" := M0_CONF_HA_PROCESS_STOPPED]

  /** m0HaProcessEvent.str_to_Enum: a dictionary lookup that raises KeyError on an unknown name. */
  function EventFromName(evt: string): (r: Result<ProcessEvent, KeyError>)
    ensures r.Success? ==> EventName(r.value) == evt
    ensures r.Failure? ==> r.error == KeyError(evt) && forall e :: EventName(e) != evt
  {
    if evt in EventsByName then Success(EventsByName[evt]) else Failure(KeyError(evt))
  }

  /** Each event is found under its own name and under no other. */
  lemma EventNameRoundTrip(e: ProcessEvent, evt: string)
    ensures EventFromName(EventName(e)) == Success(e)
    ensures EventFromName(evt) == Success(e) <==> evt == EventName(e)
  {
  }

  /** m0HaProcessEvent.event_to_svchealth: the health a service is given when its process reports the event. */
  function EventToSvcHealth(e: ProcessEvent): (h: ObjHealth)
    ensures h in {OK, FAILED}
  {
    match e
    case M0_CONF_HA_PROCESS_STARTING => OK
    case M0_CONF_HA_PROCESS_STARTED => OK
    case M0_CONF_HA_PROCESS_STOPPING => FAILED
    case M0_CONF_HA_PROCESS_STOPPED => FAILED
  }

  /**
   * A starting or started process makes its service OK (note state
   * ONLINE); a stopping or stopped one makes it FAILED (note state
   * FAILED), and the health survives the trip through the note state.
   */
  lemma EventHealthNoteState(e: ProcessEvent)
    ensures EventValue(e) <= 1 <==> EventToSvcHealth(e) == OK
    ensures ToHaNoteStatus(EventToSvcHealth(e)) ==
      if EventValue(e) <= 1 then HaNote.M0_NC_ONLINE else HaNote.M0_NC_FAILED
    ensures FromHaNoteState(ToHaNoteStatus(EventToSvcHealth(e))) == EventToSvcHealth(e)
  {
    HealthRoundTrip(EventToSvcHealth(e));
  }

  datatype ProcessType =
    | M0_CONF_HA_PROCESS_OTHER
    | M0_CONF_HA_PROCESS_KERNEL
    | M0_CONF_HA_PROCESS_M0MKFS
    | M0_CONF_HA_PROCESS_M0D

  /** The IntEnum value of a process type. */
  function TypeValue(t: ProcessType): int
  {
    match t
    case M0_CONF_HA_PROCESS_OTHER => 0
    case M0_CONF_HA_PROCESS_KERNEL => 1
    case M0_CONF_HA_PROCESS_M0MKFS => 2
    case M0_CONF_HA_PROCESS_M0D => 3
  }

  function TypeName(t: ProcessType): string
  {
    match t
    case M0_CONF_HA_PROCESS_OTHER => "M0_CONF_HA_PROCESS_OTHER"
    case M0_CONF_HA_PROCESS_KERNEL => "M0_CONF_HA_PROCESS_KERNEL"
    case M0_CONF_HA_PROCESS_M0MKFS => "M0_CONF_HA_PROCESS_M0MKFS"
    case M0_CONF_HA_PROCESS_M0D => "M0_CONF_HA_PROCESS_M0D"
  }

  const TypesByName: map<string, ProcessType> := map[
    "M0_CONF_HA_PROCESS_OTHER" := M0_CONF_HA_PROCESS_OTHER,
    "M0_CONF_HA_PROCESS_KERNEL" := M0_CONF_HA_PROCESS_KERNEL,
    "M0_CONF_HA_PROCESS_M0MKFS" := M0_CONF_HA_PROCESS_M0MKFS,
    "M0_CONF_HA_PROCESS_M0D" := M0_CONF_HA_PROCESS_M0D]

  /** m0HaProcessType.str_to_Enum: a dictionary lookup that raises KeyError on an unknown name. */
  function TypeFromName(t: string): (r: Result<ProcessType, KeyError>)
    ensures r.Success? ==> TypeName(r.value) == t
    ensures r.Failure? ==> r.error == KeyError(t) && forall p :: TypeName(p) != t
  {
    if t in TypesByName then Success(TypesByName[t]) else Failure(KeyError(t))
  }

  /** Each process type is found under its own name and under no other; values 0..3 are distinct. */
  lemma TypeNameRoundTrip(p: ProcessType, q: ProcessType, t: string)
    ensures TypeFromName(TypeName(p)) == Success(p)
    ensures TypeFromName(t) == Success(p) <==> t == TypeName(p)
    ensures TypeValue(p) == TypeValue(q) ==> p == q
  {
  }
}
