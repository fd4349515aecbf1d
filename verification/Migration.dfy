/** The whole of `prepare`: preferences first, then streams, each guarded by its marker. */
module Migration {
  import opened Base
  import opened Storage
  import Preferences = PrefMigration
  import PrefProtocol
  import Streams = StreamMigration
  import StreamProtocol

  /** `prepare`. An opener whose preference step fails never starts on the streams, and one
      that succeeds leaves both markers. Run quietly on stores nobody has migrated it fills
      every absent preference and copies every day, exactly when each legacy id has a key
      and each target is a prefix of its source; where both markers stand it changes
      nothing. */
  method Prepare(prefs: Preferences.Ports, streams: Streams.Ports) returns (r: Result<(), Error>)
    requires prefs.Valid() && prefs.Me().pc.CheckMarker?
    requires streams.Valid() && streams.Me().pc.CheckMarker?
    modifies prefs, streams
    ensures prefs.Valid() && old(prefs.trace) <= prefs.trace
    ensures streams.Valid() && old(streams.trace) <= streams.trace
    ensures r.Ok? ==> prefs.world.marker.ValidMarker? && streams.world.marker.ValidMarker?
    ensures r.Ok? ==> prefs.Me().pc.Finished? && streams.Me().pc.Finished?
    ensures prefs.Me().pc.Failed? ==> r.Err? && streams.trace == old(streams.trace)
    ensures r.Err? ==> prefs.Me().pc.Failed? || streams.Me().pc.Failed?
    ensures Fresh(old(prefs.Quiet()), old(streams.Quiet()), old(prefs.world), old(streams.world)) ==>
      (r.Ok? <==> Movable(old(prefs.world), old(streams.world)))
    ensures Fresh(old(prefs.Quiet()), old(streams.Quiet()), old(prefs.world), old(streams.world)) && r.Ok? ==>
      Moved(old(prefs.world), prefs.world, old(streams.world), streams.world, prefs.order)
    ensures Done(old(prefs.Quiet()), old(streams.Quiet()), old(prefs.world), old(streams.world)) ==>
      && r.Ok? && Preferences.SameStores(old(prefs.world), prefs.world)
      && Streams.SameStores(old(streams.world), streams.world)
  {
    hide PrefProtocol.Inv, PrefProtocol.Run, StreamProtocol.Inv, StreamProtocol.Run;
    hide Preferences.FilledTo, Preferences.AllKeyed;
    var _ :- Preferences.PreparePreferences(prefs);
    r := Streams.PrepareStreams(streams);
  }

  /** Nobody interferes, nothing fails, and neither step has been done. */
  ghost predicate Fresh(
      prefsQuiet: bool, streamsQuiet: bool, prefs: PrefProtocol.World, streams: StreamProtocol.World)
  {
    prefsQuiet && streamsQuiet && prefs.marker.NoMarker? && streams.marker.NoMarker?
  }

  /** Nobody interferes, nothing fails, and both steps have been done. */
  ghost predicate Done(
      prefsQuiet: bool, streamsQuiet: bool, prefs: PrefProtocol.World, streams: StreamProtocol.World)
  {
    prefsQuiet && streamsQuiet && prefs.marker.ValidMarker? && streams.marker.ValidMarker?
  }

  ghost predicate Movable(prefs: PrefProtocol.World, streams: StreamProtocol.World) {
    Preferences.AllKeyed(prefs) && Streams.AllPrefixes(streams)
  }

  ghost predicate Moved(
      prefs: PrefProtocol.World, prefs': PrefProtocol.World,
      streams: StreamProtocol.World, streams': StreamProtocol.World, order: seq<string>)
  {
    && Preferences.Covers(order, prefs.legacy)
    && Preferences.FilledTo(prefs.(marker := ValidMarker), prefs', Preferences.Listed(prefs.legacy, order))
    && Streams.MigratedTo(streams.(marker := ValidMarker), streams', streams.legacy.Keys)
  }
}
