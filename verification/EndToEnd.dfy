/** From the store through a lossy stream into a client's cache and back: local answers are the server's answers. */
module EndToEnd {
  import opened Common
  import opened Bucket
  import opened Table
  import opened Topology
  import opened Resolve
  import opened LocalResolve
  import Lifecycle
  import opened Watch

  /**
   A client that resolves from the last event of a settled stream (latest version broadcast, nothing in flight) gets,
   on every local hit, exactly the server's answer for the store as it is now, if and only if the bucket's active is
   fresh.
   */
  lemma SettledClientAgrees(t: Trace, i: nat, lib: Lib, key: Key, wall: int, cutoff: int, now: int)
    requires t.Valid() && i < |t.states|
    requires t.states[i].pc.Waiting? && t.states[i].buffer == []
    requires |t.states[i].history| > 0 && Current(t.states[i]).config.Some?
    requires Version(Current(t.states[i])) in t.states[i].notified
    requires |t.states[i].events| > 0 || t.states[i].since < Version(Current(t.states[i]))
    ensures |t.states[i].events| > 0
    requires SurvivesWire(key)
    ensures var s := t.states[i];
            var db := Current(s);
            var cache := s.events[|s.events| - 1].topology;
            && Lifecycle.Inv(db)
            && (LocalWrite(cache, lib, key, wall).Some? ==>
                  (ResolveWrite(db, lib, Wire(key), wall, cutoff, now)
                      == Resolved(db, Ok(LocalWrite(cache, lib, key, wall).value))
                   <==> RouteFresh(db, lib, key, wall, cutoff)))
            && (LocalRead(cache, lib, key, wall).Some? ==>
                  (ResolveRead(db, lib, Wire(key), wall, cutoff, now)
                      == Resolved(db, Ok(LocalRead(cache, lib, key, wall).value))
                   <==> RouteFresh(db, lib, key, wall, cutoff)))
  {
    hide LocalWrite, LocalRead, ResolveWrite, ResolveRead, RouteFresh, Next, Watch.Enabled, SurvivesWire, TopologyOf;
    StreamInvAlways(t, i);
    QuietStreamIsExact(t, i);
    var db := Current(t.states[i]);
    if LocalWrite(TopologyOf(db), lib, key, wall).Some? {
      LocalWriteAgrees(db, lib, key, wall, cutoff, now);
    }
    if LocalRead(TopologyOf(db), lib, key, wall).Some? {
      LocalReadAgrees(db, lib, key, wall, cutoff, now);
    }
  }
}
