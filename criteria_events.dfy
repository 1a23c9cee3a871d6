/** Deferred read-only configuration of a shard criteria.

    `SetReadOnlyEvent` records the flag given to it before the shard's
    criteria exists and sets it on the criteria when the event fires. The
    criteria is reduced to its read-only flag and an abstract remainder
    standing for every other setting. */
module CriteriaEvents {

  /** The criteria event of the model; it keeps the flag it was built with. */
  datatype CriteriaEvent = SetReadOnly(readOnly: bool)

  datatype CriteriaState<O> = CriteriaState(readOnly: bool, other: O)

  /** What `onEvent` does to a criteria: the flag becomes the recorded value,
      whatever it was, and nothing else changes. */
  function Effect<O>(e: CriteriaEvent, st: CriteriaState<O>): (r: CriteriaState<O>)
    ensures r.readOnly == e.readOnly
    ensures r.other == st.other
  {
    st.(readOnly := e.readOnly)
  }

  /** Events fired one after another. */
  function FireInOrder<O>(events: seq<CriteriaEvent>, st: CriteriaState<O>): CriteriaState<O>
    decreases |events|
  {
    if |events| == 0 then st else FireInOrder(events[1..], Effect(events[0], st))
  }

  /** The flag is assigned, not toggled: firing twice is firing once. */
  lemma EffectIdempotent<O>(e: CriteriaEvent, st: CriteriaState<O>)
    ensures Effect(e, Effect(e, st)) == Effect(e, st)
  {
  }

  /** Of several events fired in order the last one decides the flag; the
      other settings are those the criteria started with. */
  lemma {:induction false} LastEventWins<O>(events: seq<CriteriaEvent>, st: CriteriaState<O>)
    requires |events| > 0
    ensures FireInOrder(events, st) == CriteriaState(events[|events| - 1].readOnly, st.other)
    decreases |events|
  {
    if |events| == 1 {
      assert FireInOrder(events[1..], Effect(events[0], st)) == Effect(events[0], st);
    } else {
      LastEventWins(events[1..], Effect(events[0], st));
      assert events[1..][|events[1..]| - 1] == events[|events| - 1];
    }
  }

  /** A shard criteria as the events see it. */
  class Criteria<O> {
    var readOnly: bool
    var other: O

    function State(): CriteriaState<O>
      reads this
    {
      CriteriaState(readOnly, other)
    }

    constructor (readOnly: bool, other: O)
      ensures State() == CriteriaState(readOnly, other)
    {
      this.readOnly := readOnly;
      this.other := other;
    }

    /** `Criteria.setReadOnly`. */
    method SetReadOnly(readOnly: bool)
      modifies this`readOnly
      ensures this.readOnly == readOnly
    {
      this.readOnly := readOnly;
    }
  }

  /** `onEvent`: sets the criteria's read-only flag in place. */
  method OnEvent<O>(e: CriteriaEvent, crit: Criteria<O>)
    modifies crit`readOnly
    ensures crit.State() == Effect(e, old(crit.State()))
  {
    crit.SetReadOnly(e.readOnly);
  }

  /** Firing the same event twice leaves the criteria as firing it once. */
  method OnEventTwice<O>(e: CriteriaEvent, crit: Criteria<O>)
    modifies crit`readOnly
    ensures crit.State() == Effect(e, old(crit.State()))
  {
    OnEvent(e, crit);
    OnEvent(e, crit);
    EffectIdempotent(e, old(crit.State()));
  }
}
