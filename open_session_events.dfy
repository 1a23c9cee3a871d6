/** Deferred fetch-profile configuration of a shard session.

    `EnableFetchProfileOpenSessionEvent` and
    `DisableFetchProfileOpenSessionEvent` record a profile name before the
    shard's session exists and apply it when the session is opened. The
    session itself is reduced to the profiles its factory defines, the ones
    currently enabled, and an abstract remainder standing for every other
    setting. */
module OpenSessionEvents {
  import opened Wrappers

  /** The open-session events; each keeps the profile name it was built with. */
  datatype OpenSessionEvent = EnableFetchProfile(name: string) | DisableFetchProfile(name: string)

  /** The `UnsupportedOperationException` thrown for an unknown profile. */
  datatype EventError = UnsupportedOperation(message: string)

  function UnknownProfileMessage(name: string): string {
    "fetch profile " + name + " is unknown to one session"
  }

  datatype SessionState<O> = SessionState(known: set<string>, enabled: set<string>, other: O)

  /** Only a profile the session knows can be enabled. */
  predicate ValidState<O>(st: SessionState<O>) {
    st.enabled <= st.known
  }

  /** What `onOpenSession` does to a session. A known profile ends up enabled
      (or disabled) and nothing else changes; an unknown profile is an error
      naming it, and the session is left as it was. */
  function Effect<O>(e: OpenSessionEvent, st: SessionState<O>): (r: Result<SessionState<O>, EventError>)
    ensures r.Ok? <==> e.name in st.known
    ensures r.Ok? ==> r.value.known == st.known && r.value.other == st.other
    ensures r.Ok? ==> (e.name in r.value.enabled <==> e.EnableFetchProfile?)
    ensures r.Ok? ==> forall p :: p != e.name ==> (p in r.value.enabled <==> p in st.enabled)
    ensures r.Ok? && ValidState(st) ==> ValidState(r.value)
    ensures r.Err? ==> r.error == UnsupportedOperation(UnknownProfileMessage(e.name))
  {
    if e.name !in st.known then Err(UnsupportedOperation(UnknownProfileMessage(e.name)))
    else
      match e
      case EnableFetchProfile(n) => Ok(st.(enabled := st.enabled + {n}))
      case DisableFetchProfile(n) => Ok(st.(enabled := st.enabled - {n}))
  }

  /** Events fired one after another, stopping at the first failure. */
  function FireInOrder<O>(events: seq<OpenSessionEvent>, st: SessionState<O>): Result<SessionState<O>, EventError>
    decreases |events|
  {
    if |events| == 0 then Ok(st)
    else
      match Effect(events[0], st)
      case Err(e) => Err(e)
      case Ok(next) => FireInOrder(events[1..], next)
  }

  /** Firing an event that succeeded once more changes nothing. */
  lemma EffectIdempotent<O>(e: OpenSessionEvent, st: SessionState<O>)
    requires Effect(e, st).Ok?
    ensures Effect(e, Effect(e, st).value) == Effect(e, st)
  {
    var once := Effect(e, st).value;
    if e.EnableFetchProfile? {
      assert once.enabled + {e.name} == once.enabled;
    } else {
      assert once.enabled - {e.name} == once.enabled;
    }
  }

  /** The event carries no state of its own: on any two sessions that know the
      profile it leaves the profile in the same status, whatever else those
      sessions hold. */
  lemma SameEffectOnEverySession<O>(e: OpenSessionEvent, st1: SessionState<O>, st2: SessionState<O>)
    requires e.name in st1.known && e.name in st2.known
    ensures (e.name in Effect(e, st1).value.enabled) == (e.name in Effect(e, st2).value.enabled)
  {
  }

  /** Enabling and disabling one known profile any number of times leaves it
      in the status the last event sets, and every other profile and setting
      as it was. */
  lemma {:induction false} LastEventDecides<O>(events: seq<OpenSessionEvent>, n: string, st: SessionState<O>)
    requires |events| > 0 && n in st.known
    requires forall i :: 0 <= i < |events| ==> events[i].name == n
    ensures FireInOrder(events, st).Ok?
    ensures (n in FireInOrder(events, st).value.enabled) <==> events[|events| - 1].EnableFetchProfile?
    ensures FireInOrder(events, st).value.known == st.known && FireInOrder(events, st).value.other == st.other
    ensures forall p :: p != n ==> (p in FireInOrder(events, st).value.enabled <==> p in st.enabled)
    decreases |events|
  {
    var next := Effect(events[0], st).value;
    if |events| == 1 {
      assert FireInOrder(events[1..], next) == Ok(next);
    } else {
      LastEventDecides(events[1..], n, next);
      assert events[1..][|events[1..]| - 1] == events[|events| - 1];
    }
  }

  /** A shard session as the events see it. */
  class Session<O> {
    var known: set<string>
    var enabled: set<string>
    var other: O

    function State(): SessionState<O>
      reads this
    {
      SessionState(known, enabled, other)
    }

    constructor (known: set<string>, other: O)
      ensures State() == SessionState(known, {}, other)
      ensures ValidState(State())
    {
      this.known := known;
      this.enabled := {};
      this.other := other;
    }

    /** `Session.enableFetchProfile`: fails, changing nothing, when the
        session's factory does not define the profile. */
    method EnableFetchProfile(name: string) returns (found: bool)
      modifies this`enabled
      ensures found == (name in known)
      ensures enabled == if found then old(enabled) + {name} else old(enabled)
    {
      found := name in known;
      if found {
        enabled := enabled + {name};
      }
    }

    /** `Session.disableFetchProfile`: fails, changing nothing, when the
        session's factory does not define the profile. */
    method DisableFetchProfile(name: string) returns (found: bool)
      modifies this`enabled
      ensures found == (name in known)
      ensures enabled == if found then old(enabled) - {name} else old(enabled)
    {
      found := name in known;
      if found {
        enabled := enabled - {name};
      }
    }
  }

  /** `onOpenSession`: applies the event to the session in place and turns
      the session's unknown-profile failure into the event's own error. */
  method OnOpenSession<O>(e: OpenSessionEvent, session: Session<O>) returns (r: Outcome<EventError>)
    modifies session`enabled
    ensures Effect(e, old(session.State())).Ok? ==>
              r.Pass? && session.State() == Effect(e, old(session.State())).value
    ensures Effect(e, old(session.State())).Err? ==>
              r == Fail(Effect(e, old(session.State())).error) && session.State() == old(session.State())
    ensures ValidState(old(session.State())) ==> ValidState(session.State())
  {
    var found;
    match e {
      case EnableFetchProfile(name) =>
        found := session.EnableFetchProfile(name);
      case DisableFetchProfile(name) =>
        found := session.DisableFetchProfile(name);
    }
    if found {
      r := Pass;
    } else {
      r := Fail(UnsupportedOperation(UnknownProfileMessage(e.name)));
    }
  }

  /** One event replayed on two sessions affects each as if it were the only
      one: the event is a value and is not changed by being fired. */
  method ReplayOnTwoSessions<O>(e: OpenSessionEvent, s1: Session<O>, s2: Session<O>)
      returns (r1: Outcome<EventError>, r2: Outcome<EventError>)
    requires s1 != s2
    modifies s1`enabled, s2`enabled
    ensures r1.Pass? <==> e.name in s1.known
    ensures r2.Pass? <==> e.name in s2.known
    ensures Effect(e, old(s1.State())).Ok? ==> s1.State() == Effect(e, old(s1.State())).value
    ensures Effect(e, old(s2.State())).Ok? ==> s2.State() == Effect(e, old(s2.State())).value
    ensures r1.Fail? ==> s1.State() == old(s1.State())
    ensures r2.Fail? ==> s2.State() == old(s2.State())
    ensures r1.Fail? ==> r1 == Fail(UnsupportedOperation(UnknownProfileMessage(e.name)))
    ensures r2.Fail? ==> r2 == Fail(UnsupportedOperation(UnknownProfileMessage(e.name)))
    ensures ValidState(old(s1.State())) ==> ValidState(s1.State())
    ensures ValidState(old(s2.State())) ==> ValidState(s2.State())
  {
    r1 := OnOpenSession(e, s1);
    r2 := OnOpenSession(e, s2);
  }
}
