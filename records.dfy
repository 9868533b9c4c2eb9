/**
 * The replicated state records of the world-state cache: factions, areas,
 * objectives and servers, with the defaults their structs initialise them to.
 * `-1` is the source's "not assigned" value for every ID and index.
 */
module Records {
  /** An `FVector`. Locations and sizes are carried, never computed on. */
  datatype Vector = Vector(X: real, Y: real, Z: real)

  const ZeroVector: Vector := Vector(0.0, 0.0, 0.0)

  /** An `FColor`: red, green, blue and alpha channels. */
  datatype Color = Color(R: int, G: int, B: int, A: int)

  /** `FColor(127, 127, 127)`; the alpha channel defaults to opaque. */
  const Gray: Color := Color(127, 127, 127, 255)

  const Unassigned: int := -1

  datatype FactionState = FactionState(ID: int, Index: int, Name: string, Color: Color, Score: int)

  datatype AreaState = AreaState(
    ID: int,
    Version: int,
    RegionID: int,
    Index: int,
    Name: string,
    Location: Vector,
    Size: Vector,
    ServerID: int)

  datatype ObjectiveState = ObjectiveState(
    ID: int,
    Version: int,
    RegionID: int,
    Index: int,
    Name: string,
    Location: Vector,
    InitialFactionID: int,
    InitialFactionIndex: int,
    FactionID: int,
    FactionIndex: int,
    LinkedObjectiveIDs: seq<int>,
    LinkedObjectiveIndexes: seq<int>,
    AreaID: int,
    AreaIndex: int)

  datatype ServerState = ServerState(
    ID: int,
    Version: int,
    RegionID: int,
    AreaIDs: seq<int>,
    AreaIndexes: seq<int>,
    Enabled: bool,
    Active: bool,
    PrivateIP: string,
    PublicIP: string,
    PublicWebSocketPort: int)

  /** Held by no faction. */
  predicate IsUnclaimed(o: ObjectiveState) { o.FactionID == Unassigned && o.FactionIndex == Unassigned }

  /** Inside no area: the capture rule treats such an objective as active everywhere. */
  predicate IsInNoArea(o: ObjectiveState) { o.AreaID == Unassigned && o.AreaIndex == Unassigned }

  /**
   * A default-constructed `FAdhocAreaState`. `Location` and `Size` have no
   * initialiser, so they are whatever the caller's storage held.
   */
  function NewArea(location: Vector, size: Vector): (a: AreaState)
    ensures a.ID == Unassigned && a.Version == Unassigned
    ensures a.RegionID == Unassigned && a.Index == Unassigned
    ensures a.ServerID == Unassigned
    ensures a.Name == ""
    ensures a.Location == location && a.Size == size
  {
    AreaState(Unassigned, Unassigned, Unassigned, Unassigned, "", location, size, Unassigned)
  }

  /** A default-constructed `FAdhocObjectiveState`. */
  function NewObjective(): (o: ObjectiveState)
    ensures o.ID == Unassigned && o.Version == Unassigned
    ensures o.RegionID == Unassigned && o.Index == Unassigned
    ensures o.InitialFactionID == Unassigned && o.InitialFactionIndex == Unassigned
    ensures IsUnclaimed(o)
    ensures IsInNoArea(o)
    ensures o.LinkedObjectiveIDs == [] && o.LinkedObjectiveIndexes == []
    ensures o.Name == "" && o.Location == ZeroVector
  {
    ObjectiveState(
      Unassigned, Unassigned, Unassigned, Unassigned, "", ZeroVector,
      Unassigned, Unassigned, Unassigned, Unassigned, [], [], Unassigned, Unassigned)
  }

  /**
   * A default-constructed `FAdhocServerState` whose ID has then been set.
   * `bEnabled` and `bActive` have no initialiser, so they are parameters here.
   */
  function NewServer(id: int, enabled: bool, active: bool): (s: ServerState)
    ensures s.ID == id
    ensures s.Version == Unassigned && s.RegionID == Unassigned
    ensures s.AreaIDs == [] && s.AreaIndexes == []
    ensures s.PrivateIP == "" && s.PublicIP == ""
    ensures s.PublicWebSocketPort == Unassigned
    ensures s.Enabled == enabled && s.Active == active
  {
    ServerState(id, Unassigned, Unassigned, [], [], enabled, active, "", "", Unassigned)
  }
}
