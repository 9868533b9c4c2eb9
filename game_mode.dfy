/**
 * The server-side game mode component (`Private/Game` revision): it seeds the
 * world-state cache from the level, keeps it in step with the manager's
 * events, and decides when a player is handed to another server.
 *
 * HTTP and STOMP transport are not modelled: an event or a response arrives
 * as a parameter, and a message sent is appended to a log. Kicking or
 * travelling a player is returned as an outcome tag.
 */
module GameMode {
  import opened Wrappers
  import opened Numeric
  import opened Lists
  import opened Records
  import opened GameState
  import ObjectiveComp
  import Area
  import Player
  import Pawn
  import Travel

  // ---- what the level and the manager hand in ----

  /** An area volume met while iterating the level: its area component, location and scale. */
  datatype AreaVolume = AreaVolume(Component: Area.AreaComponent, Location: Vector, Scale: Vector)

  /** A volume's extent: its scale times the 200-unit edge of the unscaled brush. */
  function VolumeSize(scale: Vector): (r: Vector)
    ensures r.X == scale.X * 200.0 && r.Y == scale.Y * 200.0 && r.Z == scale.Z * 200.0
  {
    Vector(scale.X * 200.0, scale.Y * 200.0, scale.Z * 200.0)
  }

  /** An actor carrying an objective component, and where it stands. */
  datatype ObjectiveActor = ObjectiveActor(Component: ObjectiveComp.ObjectiveComponent, Location: Vector)

  /** A `ServerUpdated` event, as the subscription handler passes it on. */
  datatype ServerUpdate = ServerUpdate(
    ServerID: int,
    RegionID: int,
    Enabled: bool,
    Active: bool,
    PrivateIP: string,
    PublicIP: string,
    PublicWebSocketPort: int,
    AreaIDs: seq<int>,
    AreaIndexes: seq<int>)

  /** The `ObjectiveTaken` message exchanged with the manager. */
  datatype ObjectiveTakenMessage = ObjectiveTakenMessage(ObjectiveID: int, FactionID: int)

  function AreaComponents(volumes: seq<AreaVolume>): (r: seq<Area.AreaComponent>)
    ensures |r| == |volumes| && forall k :: 0 <= k < |volumes| ==> r[k] == volumes[k].Component
  {
    if |volumes| == 0 then [] else [volumes[0].Component] + AreaComponents(volumes[1..])
  }

  function ObjectiveComponents(actors: seq<ObjectiveActor>): (r: seq<ObjectiveComp.ObjectiveComponent>)
    ensures |r| == |actors| && forall k :: 0 <= k < |actors| ==> r[k] == actors[k].Component
  {
    if |actors| == 0 then [] else [actors[0].Component] + ObjectiveComponents(actors[1..])
  }

  // ---- the records initialisation writes ----

  /** The three factions a server starts with until the manager sends the real ones. */
  const DefaultFactions: seq<FactionState> := [
    FactionState(1, 0, "Alpha", Color(255, 255, 0, 255), 0),
    FactionState(2, 1, "Beta", Color(0, 170, 255, 255), 0),
    FactionState(3, 2, "Gamma", Color(170, 0, 255, 255), 0)]

  /** Each faction's index is its position, every faction has an ID, and no two share one. */
  predicate FactionsIndexed(fs: seq<FactionState>)
  {
    && (forall i :: 0 <= i < |fs| ==> fs[i].Index == i && fs[i].ID != Unassigned)
    && (forall i, j :: 0 <= i < j < |fs| ==> fs[i].ID != fs[j].ID)
  }

  /** The area record written for the area volume met `index`-th. */
  function DiscoveredArea(name: string, location: Vector, size: Vector, index: int, regionID: int, serverID: int): AreaState
  {
    NewArea(location, size).(RegionID := regionID, Index := index, Name := name, ServerID := serverID)
  }

  /** The single area assumed when the level has no area volumes. */
  function FallbackArea(regionID: int, serverID: int): AreaState
  {
    DiscoveredArea("A", ZeroVector, Vector(10000.0, 10000.0, 10000.0), 0, regionID, serverID)
  }

  /** The objective record written for the objective component met `index`-th, before its links are filled in. */
  function DiscoveredObjective(index: int, regionID: int, name: string, location: Vector,
                               initialFactionIndex: int, factionIndex: int, areaIndex: int): ObjectiveState
  {
    NewObjective().(RegionID := regionID, Index := index, Name := name, Location := location,
                    InitialFactionIndex := initialFactionIndex, FactionIndex := factionIndex, AreaIndex := areaIndex)
  }

  /** The objective indexes of the linked components, in link order. */
  function LinkIndexes(links: seq<ObjectiveComp.ObjectiveComponent>): (r: seq<int>)
    reads links
    ensures |r| == |links| && forall k :: 0 <= k < |links| ==> r[k] == links[k].ObjectiveIndex
  {
    if |links| == 0 then [] else [links[0].ObjectiveIndex] + LinkIndexes(links[1..])
  }

  /** The port every server advertises for WebSocket clients. */
  const DefaultWebSocketPort: int := 8889

  /**
   * A server record after an update: every field but `Version` comes from
   * the event, and the area lists lose their duplicates.
   */
  function ApplyServerUpdate(s: ServerState, ev: ServerUpdate): (r: ServerState)
    ensures r.ID == I32(ev.ServerID) && r.RegionID == I32(ev.RegionID) && r.Version == s.Version
    ensures r.Enabled == ev.Enabled && r.Active == ev.Active
    ensures r.PrivateIP == ev.PrivateIP && r.PublicIP == ev.PublicIP && r.PublicWebSocketPort == ev.PublicWebSocketPort
    ensures NoDup(r.AreaIDs) && NoDup(r.AreaIndexes)
    ensures forall i :: 0 <= i < |ev.AreaIDs| ==> ev.AreaIDs[i] in r.AreaIDs
    ensures forall i :: 0 <= i < |r.AreaIDs| ==> r.AreaIDs[i] in ev.AreaIDs
    ensures forall i :: 0 <= i < |ev.AreaIndexes| ==> ev.AreaIndexes[i] in r.AreaIndexes
    ensures forall i :: 0 <= i < |r.AreaIndexes| ==> r.AreaIndexes[i] in ev.AreaIndexes
  {
    s.(ID := I32(ev.ServerID), RegionID := I32(ev.RegionID), Enabled := ev.Enabled, Active := ev.Active,
       PrivateIP := ev.PrivateIP, PublicIP := ev.PublicIP, PublicWebSocketPort := ev.PublicWebSocketPort,
       AreaIDs := Dedup(ev.AreaIDs), AreaIndexes := Dedup(ev.AreaIndexes))
  }

  /** An update already free of duplicates is stored as sent. */
  lemma ApplyServerUpdateKeepsDuplicateFreeLists(s: ServerState, ev: ServerUpdate)
    requires NoDup(ev.AreaIDs) && NoDup(ev.AreaIndexes)
    ensures ApplyServerUpdate(s, ev).AreaIDs == ev.AreaIDs
    ensures ApplyServerUpdate(s, ev).AreaIndexes == ev.AreaIndexes
  {
    DedupOfNoDup(ev.AreaIDs);
    DedupOfNoDup(ev.AreaIndexes);
  }

  /** Applying the same update twice is applying it once. */
  lemma ApplyServerUpdateIdempotent(s: ServerState, ev: ServerUpdate)
    ensures ApplyServerUpdate(ApplyServerUpdate(s, ev), ev) == ApplyServerUpdate(s, ev)
  {
  }

  // ---- messages exchanged with the manager ----

  /** The body of a `userJoin` request. `None` marks a field left out of the JSON. */
  datatype JoinRequest = JoinRequest(ServerID: int, UserID: Option<int>, FactionID: Option<int>, Human: bool, Token: Option<string>)

  /** Where a returning user was last seen; the manager sends X negated. */
  datatype ResumeLocation = ResumeLocation(ServerID: int, X: real, Y: real, Z: real, Yaw: real, Pitch: real)

  /**
   * A `userJoin` response: a failed request or non-200 status, a body that
   * is not JSON, or the user's record. `Location` is present only when the
   * server ID and all five coordinates are.
   */
  datatype JoinResponse =
    | JoinFailed
    | JoinUnreadable
    | JoinAccepted(ID: int, FactionID: int, Name: string, Token: string, Location: Option<ResumeLocation>)

  /** How a join ends: a failure, with the player kicked or not, or a success. */
  datatype JoinOutcome = JoinFailure(Kicked: bool) | JoinSuccess

  /** The body of a `userAutoNavigate` request; the manager's X axis is mirrored. */
  datatype NavigateRequest = NavigateRequest(
    UserID: int, SourceServerID: int, DestinationAreaID: int, X: real, Y: real, Z: real, Yaw: real, Pitch: real)

  /** What entering an area leads to: one of four refusals, or a navigate request. */
  datatype EnterAreaOutcome = AlreadyActive | AreaNotFound | AreaIDUnavailable | NoUserID | SubmitNavigate(Request: NavigateRequest)

  /** A `userAutoNavigate` response: a failure, an unreadable body, or the destination server. */
  datatype NavigateResponse =
    | NavigateFailed
    | NavigateUnreadable
    | NavigateAccepted(DestinationServerID: int, IP: string, Port: int, WebSocketURL: string)

  /** Either the player stays, or travels to `URL`, first releasing and destroying its pawn if it has one. */
  datatype NavigateOutcome = NoTravel | ClientTravel(URL: string, DestroyPawn: bool)

  /** One element of the objectives upload; the manager's X axis is mirrored. */
  datatype ObjectiveSubmission = ObjectiveSubmission(
    RegionID: int,
    Index: int,
    Name: string,
    X: real,
    Y: real,
    Z: real,
    Size: Vector,
    InitialFactionIndex: Option<int>,
    LinkedObjectiveIndexes: seq<int>,
    AreaIndex: int)

  /** The spawn transform a resume location becomes: no roll, X mirrored back. */
  function SpawnTransform(l: ResumeLocation): (t: Player.Transform)
    ensures t.Pitch == l.Pitch && t.Yaw == l.Yaw && t.Roll == 0.0
    ensures t.Location == Vector(-l.X, l.Y, l.Z)
  {
    Player.Transform(l.Pitch, l.Yaw, 0.0, Vector(-l.X, l.Y, l.Z))
  }

  // ---- the objectives upload, as a function of the world ----

  /** The indexes sent for a list of links: those of the linked objectives that lie in an area, in link order. */
  function SubmittedLinks(links: seq<ObjectiveComp.ObjectiveComponent>): (r: seq<int>)
    reads *
    ensures |r| <= |links|
    ensures forall x :: x in r <==> exists j :: 0 <= j < |links| && links[j].AreaIndexSafe() != -1 && links[j].ObjectiveIndex == x
    decreases |links|
  {
    if |links| == 0 then []
    else
      var front := SubmittedLinks(links[..|links| - 1]);
      var last := links[|links| - 1];
      assert forall j :: 0 <= j < |links| - 1 ==> links[..|links| - 1][j] == links[j];
      if last.AreaIndexSafe() != -1 then front + [last.ObjectiveIndex] else front
  }

  /** The upload entry for one objective actor. */
  function Submission(actor: ObjectiveActor, regionID: int): (s: ObjectiveSubmission)
    reads *
    ensures s.Index == actor.Component.ObjectiveIndex && s.AreaIndex == actor.Component.AreaIndexSafe()
    ensures s.InitialFactionIndex.None? <==> actor.Component.InitialFactionIndex == -1
  {
    var c := actor.Component;
    ObjectiveSubmission(
      regionID, c.ObjectiveIndex, c.FriendlyName, -actor.Location.X, actor.Location.Y, actor.Location.Z, Vector(1.0, 1.0, 1.0),
      if c.InitialFactionIndex == -1 then None else Some(c.InitialFactionIndex),
      SubmittedLinks(c.LinkedObjectives),
      c.AreaIndexSafe())
  }

  /** The whole upload: one entry per objective actor in an area, in world order; those outside every area are skipped. */
  function Submissions(actors: seq<ObjectiveActor>, regionID: int): (r: seq<ObjectiveSubmission>)
    reads *
    ensures |r| <= |actors|
    ensures forall i :: 0 <= i < |r| ==> r[i].AreaIndex != -1
    decreases |actors|
  {
    if |actors| == 0 then []
    else
      var front := Submissions(actors[..|actors| - 1], regionID);
      var last := actors[|actors| - 1];
      if last.Component.AreaIndexSafe() != -1 then front + [Submission(last, regionID)] else front
  }

  /** Every objective actor in an area has its entry in the upload. */
  lemma {:induction false} SubmissionsComplete(actors: seq<ObjectiveActor>, regionID: int)
    ensures forall k :: 0 <= k < |actors| && actors[k].Component.AreaIndexSafe() != -1 ==>
      Submission(actors[k], regionID) in Submissions(actors, regionID)
    decreases |actors|
  {
    if |actors| > 0 {
      var init := actors[..|actors| - 1];
      SubmissionsComplete(init, regionID);
      forall k | 0 <= k < |actors| && actors[k].Component.AreaIndexSafe() != -1
        ensures Submission(actors[k], regionID) in Submissions(actors, regionID)
      {
        if k < |actors| - 1 {
          assert init[k] == actors[k];
        }
      }
    }
  }

  /** Every entry of the upload is that of some objective actor in an area. */
  lemma {:induction false} SubmissionsSound(actors: seq<ObjectiveActor>, regionID: int)
    ensures forall i :: 0 <= i < |Submissions(actors, regionID)| ==>
      exists k :: 0 <= k < |actors| && actors[k].Component.AreaIndexSafe() != -1 && Submissions(actors, regionID)[i] == Submission(actors[k], regionID)
    decreases |actors|
  {
    if |actors| > 0 {
      var init := actors[..|actors| - 1];
      SubmissionsSound(init, regionID);
      var r := Submissions(actors, regionID);
      var front := Submissions(init, regionID);
      var last := actors[|actors| - 1];
      assert r == if last.Component.AreaIndexSafe() != -1 then front + [Submission(last, regionID)] else front;
      forall i | 0 <= i < |r|
        ensures exists k :: 0 <= k < |actors| && actors[k].Component.AreaIndexSafe() != -1 && r[i] == Submission(actors[k], regionID)
      {
        if i < |front| {
          var k :| 0 <= k < |init| && init[k].Component.AreaIndexSafe() != -1 && front[i] == Submission(init[k], regionID);
          assert init[k] == actors[k] && r[i] == front[i];
          assert actors[k].Component.AreaIndexSafe() != -1 && r[i] == Submission(actors[k], regionID);
        } else {
          assert last.Component.AreaIndexSafe() != -1 && r[i] == Submission(last, regionID);
        }
      }
      assert forall i :: 0 <= i < |r| ==>
        exists k :: 0 <= k < |actors| && actors[k].Component.AreaIndexSafe() != -1 && r[i] == Submission(actors[k], regionID);
    } else {
      assert Submissions(actors, regionID) == [];
    }
  }

  /**
   * The area pass both revisions share: numbers the area volumes 0, 1, ...
   * in iteration order and builds one area record each; only the first
   * becomes active. With no volumes, the one fallback area (index 0) is built
   * and made active.
   */
  method NumberAreas(volumes: seq<AreaVolume>, regionID: int, serverID: int) returns (areas: seq<AreaState>, active: seq<int>)
    requires forall i, j :: 0 <= i < j < |volumes| ==> volumes[i].Component != volumes[j].Component
    modifies AreaComponents(volumes)`AreaIndex
    ensures forall k :: 0 <= k < |volumes| ==> volumes[k].Component.AreaIndex == k
    ensures |volumes| > 0 ==>
      && |areas| == |volumes|
      && forall k :: 0 <= k < |volumes| ==>
           areas[k] == DiscoveredArea(volumes[k].Component.FriendlyName, volumes[k].Location, VolumeSize(volumes[k].Scale),
                                      k, regionID, serverID)
    ensures |volumes| == 0 ==> areas == [FallbackArea(regionID, serverID)]
    ensures active == [0]
    ensures forall k :: 0 <= k < |areas| ==> areas[k].Index == k
  {
    ghost var names := seq(|volumes|, k requires 0 <= k < |volumes| reads * => volumes[k].Component.FriendlyName);
    var index := 0;
    areas := [];
    active := [];
    while index < |volumes|
      invariant 0 <= index <= |volumes|
      invariant |areas| == index
      invariant forall k :: 0 <= k < index ==> volumes[k].Component.AreaIndex == k
      invariant forall k :: 0 <= k < |volumes| ==> volumes[k].Component.FriendlyName == names[k]
      invariant forall k :: 0 <= k < index ==>
        areas[k] == DiscoveredArea(names[k], volumes[k].Location, VolumeSize(volumes[k].Scale), k, regionID, serverID)
      invariant active == if index == 0 then [] else [0]
    {
      var volume := volumes[index];
      volume.Component.SetAreaIndex(index);
      var area := DiscoveredArea(volume.Component.FriendlyName, volume.Location, VolumeSize(volume.Scale),
                                 volume.Component.AreaIndex, regionID, serverID);
      areas := areas + [area];
      if |active| < 1 {
        active := AddUnique(active, volume.Component.AreaIndex);
      }
      index := index + 1;
    }
    if |areas| <= 0 {
      var area := FallbackArea(regionID, serverID);
      areas := areas + [area];
      active := AddUnique(active, area.Index);
    }
  }

  /**
   * One step of the linking pass: finds the record by region and index,
   * which is the one at that position, and stores the link indexes there
   * without duplicates.
   */
  method LinkRecord(gs: GameStateComponent, regionID: int, objectiveIndex: int, ids: seq<int>)
    requires forall k :: 0 <= k < |gs.Objectives| ==> gs.Objectives[k].Index == k && gs.Objectives[k].RegionID == regionID
    requires 0 <= objectiveIndex < |gs.Objectives|
    modifies gs`Objectives
    ensures gs.Objectives == old(gs.Objectives)[objectiveIndex := old(gs.Objectives)[objectiveIndex].(LinkedObjectiveIndexes := Dedup(ids))]
  {
    gs.IndexedObjectiveFound(regionID, objectiveIndex);
    var found := gs.FindObjectiveByRegionIDAndIndex(regionID, objectiveIndex);
    var links := AddUniqueAll(ids);
    var pos := found.value;
    gs.Objectives := gs.Objectives[pos := gs.Objectives[pos].(LinkedObjectiveIndexes := links)];
  }

  /**
   * The linking pass both revisions share: for each objective actor, in
   * iteration order, stores its links' indexes, without duplicates, in the
   * record at the actor's index.
   */
  method LinkAll(gs: GameStateComponent, regionID: int, actors: seq<ObjectiveActor>)
    requires |gs.Objectives| == |actors|
    requires forall k :: 0 <= k < |actors| ==> actors[k].Component.ObjectiveIndex == k
    requires forall k :: 0 <= k < |actors| ==> gs.Objectives[k].Index == k && gs.Objectives[k].RegionID == regionID
    modifies gs`Objectives
    ensures |gs.Objectives| == |actors|
    ensures forall k :: 0 <= k < |actors| ==>
      gs.Objectives[k] == old(gs.Objectives[k]).(LinkedObjectiveIndexes := Dedup(LinkIndexes(actors[k].Component.LinkedObjectives)))
  {
    ghost var before := gs.Objectives;
    ghost var lists := seq(|actors|, k requires 0 <= k < |actors| reads * => LinkIndexes(actors[k].Component.LinkedObjectives));
    var index := 0;
    while index < |actors|
      invariant 0 <= index <= |actors|
      invariant |gs.Objectives| == |actors|
      invariant forall k :: 0 <= k < |actors| ==> gs.Objectives[k].Index == k && gs.Objectives[k].RegionID == regionID
      invariant forall k :: 0 <= k < index ==> gs.Objectives[k] == before[k].(LinkedObjectiveIndexes := Dedup(lists[k]))
      invariant forall k :: index <= k < |actors| ==> gs.Objectives[k] == before[k]
    {
      var component := actors[index].Component;
      var ids := LinkIndexes(component.LinkedObjectives);
      assert ids == lists[index];
      LinkRecord(gs, regionID, component.ObjectiveIndex, ids);
      index := index + 1;
    }
    assert forall k :: 0 <= k < |actors| ==> lists[k] == LinkIndexes(actors[k].Component.LinkedObjectives);
  }

  class GameModeComponent {
    const AdhocGameState: GameStateComponent
    /** Whether the STOMP connection to the manager is up. */
    var StompConnected: bool
    var PrivateIP: string
    /** `ObjectiveTaken` messages sent to the manager, oldest first. */
    var SentObjectiveTaken: seq<ObjectiveTakenMessage>
    /** How many times the objective-taken delegate has been broadcast. */
    ghost var ObjectiveTakenBroadcasts: nat

    constructor (gameState: GameStateComponent, privateIP: string)
      ensures AdhocGameState == gameState && PrivateIP == privateIP
      ensures !StompConnected && SentObjectiveTaken == [] && ObjectiveTakenBroadcasts == 0
    {
      AdhocGameState := gameState;
      StompConnected := false;
      PrivateIP := privateIP;
      SentObjectiveTaken := [];
      ObjectiveTakenBroadcasts := 0;
    }

    method InitFactionStates()
      modifies AdhocGameState`Factions
      ensures AdhocGameState.Factions == DefaultFactions
      ensures FactionsIndexed(AdhocGameState.Factions)
    {
      AdhocGameState.SetFactions(DefaultFactions);
    }

    /**
     * Numbers the area volumes 0, 1, ... in iteration order and records one
     * area each; only the first becomes active. With no volumes, the one
     * fallback area (index 0) is recorded and made active.
     */
    method InitAreaStates(volumes: seq<AreaVolume>)
      requires forall i, j :: 0 <= i < j < |volumes| ==> volumes[i].Component != volumes[j].Component
      modifies AdhocGameState`Areas, AdhocGameState`ActiveAreaIndexes, AreaComponents(volumes)`AreaIndex
      ensures forall k :: 0 <= k < |volumes| ==> volumes[k].Component.AreaIndex == k
      ensures |volumes| > 0 ==>
        && |AdhocGameState.Areas| == |volumes|
        && forall k :: 0 <= k < |volumes| ==>
             AdhocGameState.Areas[k] == DiscoveredArea(volumes[k].Component.FriendlyName, volumes[k].Location, VolumeSize(volumes[k].Scale),
                                                       k, AdhocGameState.GetRegionID(), AdhocGameState.GetServerID())
      ensures |volumes| == 0 ==> AdhocGameState.Areas == [FallbackArea(AdhocGameState.GetRegionID(), AdhocGameState.GetServerID())]
      ensures AdhocGameState.ActiveAreaIndexes == [0]
      ensures forall k :: 0 <= k < |AdhocGameState.Areas| ==> AdhocGameState.Areas[k].Index == k
    {
      var areas, active := NumberAreas(volumes, AdhocGameState.GetRegionID(), AdhocGameState.GetServerID());
      AdhocGameState.SetAreas(areas);
      AdhocGameState.SetActiveAreaIndexes(active);
    }

    /**
     * Assumes this is the only server until the manager says otherwise. The
     * record carries the server ID read back through the `int32` getter, so
     * it is found by the own-ID lookup exactly when the ID fits in 32 bits.
     */
    method InitServerStates()
      modifies AdhocGameState`Servers
      ensures AdhocGameState.Servers == [
        ServerState(AdhocGameState.GetServerID(), Unassigned, AdhocGameState.GetRegionID(), [], AdhocGameState.ActiveAreaIndexes,
                    true, true, PrivateIP, PrivateIP, DefaultWebSocketPort)]
      ensures IsInt32(AdhocGameState.ServerID) <==> AdhocGameState.FindServerByID(AdhocGameState.ServerID) == Some(0)
    {
      var server := NewServer(AdhocGameState.GetServerID(), true, true);
      server := server.(RegionID := AdhocGameState.GetRegionID(), AreaIndexes := AdhocGameState.ActiveAreaIndexes);
      server := server.(PrivateIP := PrivateIP, PublicIP := PrivateIP, PublicWebSocketPort := DefaultWebSocketPort);
      AdhocGameState.SetServers([server]);
    }

    /** The record that the first pass writes for the `k`-th objective actor. */
    static function FirstPassRecord(actors: seq<ObjectiveActor>, k: nat, regionID: int): (r: ObjectiveState)
      requires k < |actors|
      reads actors[k].Component, actors[k].Component.AdhocArea
      ensures r.Index == k && r.RegionID == regionID && r.LinkedObjectiveIndexes == []
    {
      var c := actors[k].Component;
      DiscoveredObjective(k, regionID, c.FriendlyName, actors[k].Location,
                          c.InitialFactionIndex, c.FactionIndex, c.AreaIndexSafe())
    }

    /**
     * Numbers the objective components 0, 1, ... in iteration order and
     * records one objective each, then fills in each record's linked indexes
     * from its component's links, without duplicates.
     */
    method InitObjectiveStates(actors: seq<ObjectiveActor>)
      requires forall i, j :: 0 <= i < j < |actors| ==> actors[i].Component != actors[j].Component
      modifies AdhocGameState`Objectives, ObjectiveComponents(actors)`ObjectiveIndex
      ensures forall k :: 0 <= k < |actors| ==> actors[k].Component.ObjectiveIndex == k
      ensures |AdhocGameState.Objectives| == |actors|
      ensures forall k :: 0 <= k < |actors| ==>
        AdhocGameState.Objectives[k] ==
          FirstPassRecord(actors, k, AdhocGameState.GetRegionID()).(LinkedObjectiveIndexes := Dedup(LinkIndexes(actors[k].Component.LinkedObjectives)))
    {
      var regionID := AdhocGameState.GetRegionID();
      var objectives := NumberObjectives(actors);
      AdhocGameState.SetObjectives(objectives);
      assert forall k :: 0 <= k < |actors| ==>
        AdhocGameState.Objectives[k].Index == k && AdhocGameState.Objectives[k].RegionID == regionID;
      ghost var first := AdhocGameState.Objectives;
      label mid:
      LinkObjectives(actors);
      forall k | 0 <= k < |actors|
        ensures first[k] == FirstPassRecord(actors, k, regionID)
      {
        var c := actors[k].Component;
        assert first[k] == old@mid(FirstPassRecord(actors, k, regionID));
        assert c.FriendlyName == old@mid(c.FriendlyName);
        assert c.AdhocArea == old@mid(c.AdhocArea);
        assert c.AreaIndexSafe() == old@mid(c.AreaIndexSafe());
      }
    }

    /** The first pass: assigns the indexes and builds the records without links. */
    method NumberObjectives(actors: seq<ObjectiveActor>) returns (objectives: seq<ObjectiveState>)
      requires forall i, j :: 0 <= i < j < |actors| ==> actors[i].Component != actors[j].Component
      modifies ObjectiveComponents(actors)`ObjectiveIndex
      ensures forall k :: 0 <= k < |actors| ==> actors[k].Component.ObjectiveIndex == k
      ensures |objectives| == |actors|
      ensures forall k :: 0 <= k < |actors| ==> objectives[k] == FirstPassRecord(actors, k, AdhocGameState.GetRegionID())
    {
      var index := 0;
      objectives := [];
      while index < |actors|
        invariant 0 <= index <= |actors|
        invariant |objectives| == index
        invariant forall k :: 0 <= k < index ==> actors[k].Component.ObjectiveIndex == k
        invariant forall k :: 0 <= k < index ==> objectives[k] == FirstPassRecord(actors, k, AdhocGameState.GetRegionID())
      {
        var actor := actors[index];
        actor.Component.SetObjectiveIndex(index);
        var objective := DiscoveredObjective(actor.Component.ObjectiveIndex, AdhocGameState.GetRegionID(), actor.Component.FriendlyName,
                                             actor.Location, actor.Component.InitialFactionIndex, actor.Component.FactionIndex,
                                             actor.Component.AreaIndexSafe());
        objectives := objectives + [objective];
        index := index + 1;
      }
    }

    /**
     * The second pass: looks up each component's record by region and index,
     * which always finds its own, and stores the linked components' indexes
     * there without duplicates.
     */
    method LinkObjectives(actors: seq<ObjectiveActor>)
      requires |AdhocGameState.Objectives| == |actors|
      requires forall k :: 0 <= k < |actors| ==> actors[k].Component.ObjectiveIndex == k
      requires forall k :: 0 <= k < |actors| ==>
        AdhocGameState.Objectives[k].Index == k && AdhocGameState.Objectives[k].RegionID == AdhocGameState.GetRegionID()
      modifies AdhocGameState`Objectives
      ensures |AdhocGameState.Objectives| == |actors|
      ensures forall k :: 0 <= k < |actors| ==>
        AdhocGameState.Objectives[k] ==
          old(AdhocGameState.Objectives[k]).(LinkedObjectiveIndexes := Dedup(LinkIndexes(actors[k].Component.LinkedObjectives)))
    {
      LinkAll(AdhocGameState, AdhocGameState.GetRegionID(), actors);
    }

    /** Replaces the active areas, but only with indexes for this server's own region. */
    method SetActiveAreas(regionID: int, areaIndexes: seq<int>)
      modifies AdhocGameState`ActiveAreaIndexes
      ensures AdhocGameState.ActiveAreaIndexes == if regionID == AdhocGameState.GetRegionID() then areaIndexes else old(AdhocGameState.ActiveAreaIndexes)
    {
      if regionID != AdhocGameState.GetRegionID() {
        return;
      }
      AdhocGameState.SetActiveAreaIndexes(areaIndexes);
    }

    /** Overwrites the record at `i` with the event's fields, rebuilding its area lists without duplicates. */
    method ApplyUpdateAt(i: nat, ev: ServerUpdate)
      requires i < |AdhocGameState.Servers|
      modifies AdhocGameState`Servers
      ensures AdhocGameState.Servers == old(AdhocGameState.Servers)[i := ApplyServerUpdate(old(AdhocGameState.Servers)[i], ev)]
    {
      var areaIDs := AddUniqueAll(ev.AreaIDs);
      var areaIndexes := AddUniqueAll(ev.AreaIndexes);
      var server := AdhocGameState.Servers[i];
      server := server.(ID := I32(ev.ServerID), RegionID := I32(ev.RegionID), Enabled := ev.Enabled, Active := ev.Active);
      server := server.(PrivateIP := ev.PrivateIP, PublicIP := ev.PublicIP, PublicWebSocketPort := ev.PublicWebSocketPort);
      server := server.(AreaIDs := areaIDs, AreaIndexes := areaIndexes);
      AdhocGameState.Servers := AdhocGameState.Servers[i := server];
    }

    /**
     * As written: the record updated is the one the upsert returns, which is
     * this server's own record whenever one exists, whichever server the
     * event is about. The active areas follow the event only when it names
     * this server (compared as `int32`) and this region.
     */
    method OnServerUpdatedEvent(ev: ServerUpdate)
      modifies AdhocGameState`Servers, AdhocGameState`ActiveAreaIndexes
      ensures var found := old(AdhocGameState.FindServerByID(I32(ev.ServerID)));
        && (found.Some? ==> AdhocGameState.Servers == old(AdhocGameState.Servers)[found.value := ApplyServerUpdate(old(AdhocGameState.Servers)[found.value], ev)])
        && (found.None? ==> AdhocGameState.Servers == old(AdhocGameState.Servers) + [ApplyServerUpdate(NewServer(I32(ev.ServerID), false, false), ev)])
      ensures AdhocGameState.ActiveAreaIndexes ==
        if I32(ev.ServerID) == AdhocGameState.GetServerID() && I32(ev.RegionID) == AdhocGameState.GetRegionID() then ev.AreaIndexes
        else old(AdhocGameState.ActiveAreaIndexes)
    {
      var serverID := I32(ev.ServerID);
      var i := AdhocGameState.FindOrInsertServerByID(serverID);
      ApplyUpdateAt(i, ev);
      if serverID == AdhocGameState.GetServerID() {
        SetActiveAreas(I32(ev.RegionID), ev.AreaIndexes);
      }
    }

    /**
     * The update as the handler's name promises it: the record changed is
     * the event's server's own, and every record of another server is left
     * alone.
     */
    method OnServerUpdatedEventIntended(ev: ServerUpdate)
      modifies AdhocGameState`Servers, AdhocGameState`ActiveAreaIndexes
      ensures var found := old(AdhocGameState.FindServerByIDIntended(I32(ev.ServerID)));
        && (found.Some? ==> AdhocGameState.Servers == old(AdhocGameState.Servers)[found.value := ApplyServerUpdate(old(AdhocGameState.Servers)[found.value], ev)])
        && (found.None? ==> AdhocGameState.Servers == old(AdhocGameState.Servers) + [ApplyServerUpdate(NewServer(I32(ev.ServerID), false, false), ev)])
      ensures forall j :: 0 <= j < |old(AdhocGameState.Servers)| && old(AdhocGameState.Servers)[j].ID != I32(ev.ServerID) ==>
        AdhocGameState.Servers[j] == old(AdhocGameState.Servers)[j]
      ensures AdhocGameState.ActiveAreaIndexes ==
        if I32(ev.ServerID) == AdhocGameState.GetServerID() && I32(ev.RegionID) == AdhocGameState.GetRegionID() then ev.AreaIndexes
        else old(AdhocGameState.ActiveAreaIndexes)
    {
      var serverID := I32(ev.ServerID);
      var i := AdhocGameState.FindOrInsertServerByIDIntended(serverID);
      ApplyUpdateAt(i, ev);
      if serverID == AdhocGameState.GetServerID() {
        SetActiveAreas(I32(ev.RegionID), ev.AreaIndexes);
      }
    }

    /**
     * The manager's `ServerUpdated` event: the area lists lose their
     * duplicates while the message is read, before the update is applied.
     */
    method OnServerUpdatedMessage(ev: ServerUpdate)
      modifies AdhocGameState`Servers, AdhocGameState`ActiveAreaIndexes
      ensures var found := old(AdhocGameState.FindServerByID(I32(ev.ServerID)));
        && (found.Some? ==> AdhocGameState.Servers == old(AdhocGameState.Servers)[found.value := ApplyServerUpdate(old(AdhocGameState.Servers)[found.value], ev)])
        && (found.None? ==> AdhocGameState.Servers == old(AdhocGameState.Servers) + [ApplyServerUpdate(NewServer(I32(ev.ServerID), false, false), ev)])
      ensures AdhocGameState.ActiveAreaIndexes ==
        if I32(ev.ServerID) == AdhocGameState.GetServerID() && I32(ev.RegionID) == AdhocGameState.GetRegionID() then Dedup(ev.AreaIndexes)
        else old(AdhocGameState.ActiveAreaIndexes)
      ensures NoDup(AdhocGameState.ActiveAreaIndexes) || AdhocGameState.ActiveAreaIndexes == old(AdhocGameState.ActiveAreaIndexes)
    {
      var areaIDs := AddUniqueAll(ev.AreaIDs);
      var areaIndexes := AddUniqueAll(ev.AreaIndexes);
      var read := ev.(AreaIDs := areaIDs, AreaIndexes := areaIndexes);
      DedupIdempotent(ev.AreaIDs);
      DedupIdempotent(ev.AreaIndexes);
      assert ApplyServerUpdate(NewServer(I32(ev.ServerID), false, false), read) == ApplyServerUpdate(NewServer(I32(ev.ServerID), false, false), ev);
      assert forall s :: ApplyServerUpdate(s, read) == ApplyServerUpdate(s, ev);
      OnServerUpdatedEvent(read);
    }

    // ---- capturing objectives ----

    /**
     * What a capture does: the objective's record passes to the faction, the
     * first component in the world carrying the objective's index takes the
     * faction's index (notifying only on a change), and the capture is
     * broadcast once. Every other component is left alone.
     */
    twostate predicate CaptureApplied(objectivePos: nat, factionPos: nat, world: seq<ObjectiveComp.ObjectiveComponent>)
      requires objectivePos < |old(AdhocGameState.Objectives)| && factionPos < |AdhocGameState.Factions|
      reads this, AdhocGameState, world
    {
      var f := AdhocGameState.Factions[factionPos];
      var before := old(AdhocGameState.Objectives);
      && AdhocGameState.Objectives == before[objectivePos := before[objectivePos].(FactionID := f.ID, FactionIndex := f.Index)]
      && ObjectiveTakenBroadcasts == old(ObjectiveTakenBroadcasts) + 1
      && match old(ObjectiveComp.FindByObjectiveIndex(world, before[objectivePos].Index))
         case None =>
           forall o :: o in world ==> o.FactionIndex == old(o.FactionIndex) && o.FactionIndexBroadcasts == old(o.FactionIndexBroadcasts)
         case Some(k) =>
           && k < |world|
           && world[k].FactionIndex == f.Index
           && world[k].FactionIndexBroadcasts == old(world[k].FactionIndexBroadcasts) + (if old(world[k].FactionIndex) != f.Index then 1 else 0)
           && forall o :: o in world && o != world[k] ==>
                o.FactionIndex == old(o.FactionIndex) && o.FactionIndexBroadcasts == old(o.FactionIndexBroadcasts)
    }

    /**
     * Applies a capture locally. Afterwards the captor cannot take the
     * objective again, provided the objective looked up by its index is this
     * record; and the component found for it shows the same holder.
     */
    method OnObjectiveTakenEvent(objectivePos: nat, factionPos: nat, world: seq<ObjectiveComp.ObjectiveComponent>)
      requires objectivePos < |AdhocGameState.Objectives| && factionPos < |AdhocGameState.Factions|
      modifies this`ObjectiveTakenBroadcasts, AdhocGameState`Objectives, world`FactionIndex, world`FactionIndexBroadcasts
      ensures CaptureApplied(objectivePos, factionPos, world)
      ensures old(AdhocGameState.FindObjectiveByIndex(AdhocGameState.Objectives[objectivePos].Index)) == Some(objectivePos) ==>
        !AdhocGameState.IsObjectiveActiveAndTakeableByFaction(AdhocGameState.Objectives[objectivePos].Index, AdhocGameState.Factions[factionPos].Index)
      ensures old(ObjectiveComp.FindByObjectiveIndex(world, AdhocGameState.Objectives[objectivePos].Index)).Some? ==>
        var k := old(ObjectiveComp.FindByObjectiveIndex(world, AdhocGameState.Objectives[objectivePos].Index)).value;
        k < |world| && world[k].FactionIndex == AdhocGameState.Objectives[objectivePos].FactionIndex
    {
      var faction := AdhocGameState.Factions[factionPos];
      var objective := AdhocGameState.Objectives[objectivePos].(FactionID := faction.ID, FactionIndex := faction.Index);
      AdhocGameState.Objectives := AdhocGameState.Objectives[objectivePos := objective];
      var i := 0;
      while i < |world|
        invariant 0 <= i <= |world|
        invariant forall j :: 0 <= j < i ==> world[j].ObjectiveIndex != objective.Index
        invariant forall o :: o in world ==> o.FactionIndex == old(o.FactionIndex) && o.FactionIndexBroadcasts == old(o.FactionIndexBroadcasts)
      {
        if world[i].ObjectiveIndex == objective.Index {
          assert old(ObjectiveComp.FindByObjectiveIndex(world, objective.Index)) == Some(i);
          world[i].SetFactionIndex(faction.Index);
          break;
        }
        i := i + 1;
      }
      ObjectiveTakenBroadcasts := ObjectiveTakenBroadcasts + 1;
    }

    /**
     * Reports a capture. With the manager connected it is only sent on, as
     * an `ObjectiveTaken` message carrying both IDs, and takes effect when
     * the manager's event comes back; otherwise it takes effect at once.
     */
    method ObjectiveTaken(objectivePos: nat, factionPos: nat, world: seq<ObjectiveComp.ObjectiveComponent>)
      requires objectivePos < |AdhocGameState.Objectives| && factionPos < |AdhocGameState.Factions|
      modifies this`SentObjectiveTaken, this`ObjectiveTakenBroadcasts, AdhocGameState`Objectives, world`FactionIndex, world`FactionIndexBroadcasts
      ensures StompConnected ==>
        && AdhocGameState.Objectives == old(AdhocGameState.Objectives)
        && SentObjectiveTaken == old(SentObjectiveTaken) + [ObjectiveTakenMessage(AdhocGameState.Objectives[objectivePos].ID, AdhocGameState.Factions[factionPos].ID)]
        && ObjectiveTakenBroadcasts == old(ObjectiveTakenBroadcasts)
        && forall o :: o in world ==> o.FactionIndex == old(o.FactionIndex) && o.FactionIndexBroadcasts == old(o.FactionIndexBroadcasts)
      ensures !StompConnected ==> SentObjectiveTaken == old(SentObjectiveTaken) && CaptureApplied(objectivePos, factionPos, world)
    {
      if StompConnected {
        var message := ObjectiveTakenMessage(AdhocGameState.Objectives[objectivePos].ID, AdhocGameState.Factions[factionPos].ID);
        SentObjectiveTaken := SentObjectiveTaken + [message];
      } else {
        OnObjectiveTakenEvent(objectivePos, factionPos, world);
      }
    }

    /**
     * The manager's `ObjectiveTaken` event. Both IDs are read as `int32`; an
     * event naming an unknown objective or faction is dropped.
     */
    method OnObjectiveTakenMessage(message: ObjectiveTakenMessage, world: seq<ObjectiveComp.ObjectiveComponent>)
      modifies this`ObjectiveTakenBroadcasts, AdhocGameState`Objectives, world`FactionIndex, world`FactionIndexBroadcasts
      ensures var o := old(AdhocGameState.FindObjectiveByID(I32(message.ObjectiveID)));
        var f := AdhocGameState.FindFactionByID(I32(message.FactionID));
        && (o.Some? && f.Some? ==> CaptureApplied(o.value, f.value, world))
        && (o.None? || f.None? ==>
             && AdhocGameState.Objectives == old(AdhocGameState.Objectives)
             && ObjectiveTakenBroadcasts == old(ObjectiveTakenBroadcasts)
             && forall c :: c in world ==> c.FactionIndex == old(c.FactionIndex) && c.FactionIndexBroadcasts == old(c.FactionIndexBroadcasts))
    {
      var objectiveID := I32(message.ObjectiveID);
      var factionID := I32(message.FactionID);
      var objective := AdhocGameState.FindObjectiveByID(objectiveID);
      var faction := AdhocGameState.FindFactionByID(factionID);
      if objective.None? || faction.None? {
        return;
      }
      OnObjectiveTakenEvent(objective.value, faction.value, world);
    }

    // ---- joining ----

    /**
     * The `userJoin` body for a controller. The faction ID is looked up by
     * the controller's faction index, which must therefore be -1 or valid.
     */
    function JoinRequestBody(c: Player.ControllerComponent): (r: JoinRequest)
      reads this, AdhocGameState, c
      requires c.FactionIndex == -1 || 0 <= c.FactionIndex < |AdhocGameState.Factions|
      ensures r.ServerID == AdhocGameState.GetServerID() && r.Human == c.IsPlayer
      ensures r.UserID.Some? <==> c.UserID != -1
      ensures r.FactionID.Some? <==> c.FactionIndex != -1 && AdhocGameState.Factions[c.FactionIndex].ID != -1
      ensures r.Token.Some? <==> c.IsPlayer && c.Token != ""
    {
      JoinRequest(
        AdhocGameState.GetServerID(),
        if c.UserID != -1 then Some(c.UserID) else None,
        if c.FactionIndex != -1 && AdhocGameState.GetFaction(c.FactionIndex).ID != -1 then Some(AdhocGameState.GetFaction(c.FactionIndex).ID) else None,
        c.IsPlayer,
        if c.IsPlayer && c.Token != "" then Some(c.Token) else None)
    }

    /**
     * The faction index a join response's faction ID stands for: the index
     * recorded in the first faction with that ID, or -1 when the ID is -1 or
     * unknown.
     */
    function JoinFactionIndex(factionID: int): (r: int)
      reads this, AdhocGameState
      ensures r != -1 ==> exists i :: 0 <= i < |AdhocGameState.Factions| && AdhocGameState.Factions[i].ID == factionID && AdhocGameState.Factions[i].Index == r
      ensures factionID == -1 ==> r == -1
      ensures (forall i :: 0 <= i < |AdhocGameState.Factions| ==> AdhocGameState.Factions[i].ID != factionID) ==> r == -1
      ensures forall i :: 0 <= i < |AdhocGameState.Factions| && factionID != -1 && AdhocGameState.Factions[i].ID == factionID
                          && (forall j :: 0 <= j < i ==> AdhocGameState.Factions[j].ID != factionID) ==>
                r == AdhocGameState.Factions[i].Index
    {
      if factionID == -1 then -1
      else match AdhocGameState.FindFactionByID(factionID)
           case None => -1
           case Some(i) => AdhocGameState.Factions[i].Index
    }

    /**
     * When the manager echoes the faction ID it was sent, the join response
     * puts the controller back in the faction it asked for.
     */
    lemma JoinFactionRoundTrip(c: Player.ControllerComponent)
      requires FactionsIndexed(AdhocGameState.Factions)
      requires c.FactionIndex == -1 || 0 <= c.FactionIndex < |AdhocGameState.Factions|
      ensures JoinFactionIndex(match JoinRequestBody(c).FactionID case Some(id) => id case None => -1) == c.FactionIndex
    {
      if c.FactionIndex != -1 {
        FactionFoundByID(c.FactionIndex);
      }
    }

    /** With distinct IDs, a faction is found by its own ID. */
    lemma FactionFoundByID(i: nat)
      requires FactionsIndexed(AdhocGameState.Factions)
      requires i < |AdhocGameState.Factions|
      ensures AdhocGameState.FindFactionByID(AdhocGameState.Factions[i].ID) == Some(i)
    {
    }

    /**
     * Handles the `userJoin` response. A failure kicks a player controller
     * when asked to and changes nothing. A success names the controller, its
     * player state and its pawn after the user, moves them all to the
     * faction the response names, keeps the session token (players) or the
     * user ID (bots), and records where a returning player should spawn.
     */
    method OnUserJoinResponse(response: JoinResponse, c: Player.ControllerComponent, playerState: Player.PlayerStateComponent?,
                              pawn: Pawn.PawnComponent?, kickOnFailure: bool) returns (outcome: JoinOutcome)
      modifies c, playerState, pawn
      ensures !response.JoinAccepted? ==>
        && outcome == JoinFailure(c.IsPlayer && kickOnFailure)
        && unchanged(c)
        && (playerState != null ==> unchanged(playerState))
        && (pawn != null ==> unchanged(pawn))
      ensures response.JoinAccepted? ==>
        && outcome == JoinSuccess
        && ControllerJoined(c, response, JoinFactionIndex(response.FactionID))
        && (playerState != null ==> PlayerStateJoined(playerState, response, JoinFactionIndex(response.FactionID)))
        && (pawn != null ==> PawnJoined(pawn, response, JoinFactionIndex(response.FactionID)))
    {
      if !response.JoinAccepted? {
        return JoinFailure(c.IsPlayer && kickOnFailure);
      }
      var factionIndex := JoinFactionIndex(response.FactionID);
      JoinController(c, response, factionIndex);
      if playerState != null {
        JoinPlayerState(playerState, response, factionIndex);
      }
      if pawn != null {
        JoinPawn(pawn, response, factionIndex);
      }
      outcome := JoinSuccess;
    }

    /** The player state's share of a successful join. */
    static method JoinPlayerState(playerState: Player.PlayerStateComponent, response: JoinResponse, factionIndex: int)
      requires response.JoinAccepted?
      modifies playerState
      ensures PlayerStateJoined(playerState, response, factionIndex)
    {
      playerState.SetPlayerName(response.Name);
      playerState.SetUserID(response.ID);
      playerState.SetFactionIndex(factionIndex);
    }

    /** The pawn's share of a successful join. */
    static method JoinPawn(pawn: Pawn.PawnComponent, response: JoinResponse, factionIndex: int)
      requires response.JoinAccepted?
      modifies pawn
      ensures PawnJoined(pawn, response, factionIndex)
    {
      pawn.SetFriendlyName(response.Name);
      pawn.SetFactionIndex(factionIndex);
    }

    /**
     * A successful join as the controller sees it: named after the user, in
     * the response's faction, holding the session token (players) or the
     * user ID (bots), and with a spawn transform when the user is resuming.
     */
    static twostate predicate ControllerJoined(c: Player.ControllerComponent, response: JoinResponse, factionIndex: int)
      requires response.JoinAccepted?
      reads c
    {
      && c.FriendlyName == response.Name
      && c.FriendlyNameBroadcasts == old(c.FriendlyNameBroadcasts) + (if old(c.FriendlyName) != response.Name then 1 else 0)
      && c.FactionIndex == I32(factionIndex)
      && c.FactionIndexBroadcasts == old(c.FactionIndexBroadcasts) + (if old(c.FactionIndex) != factionIndex then 1 else 0)
      && c.Token == (if c.IsPlayer then response.Token else old(c.Token))
      && c.UserID == (if c.IsPlayer then old(c.UserID) else response.ID)
      && c.ImmediateSpawnTransform == (match response.Location
                                       case Some(l) => Some(SpawnTransform(l))
                                       case None => old(c.ImmediateSpawnTransform))
    }

    /** The player state after a successful join: the user's name, ID (as `int32`) and faction. */
    static twostate predicate PlayerStateJoined(playerState: Player.PlayerStateComponent, response: JoinResponse, factionIndex: int)
      requires response.JoinAccepted?
      reads playerState
    {
      playerState.PlayerName == response.Name && playerState.UserID == I32(response.ID) && playerState.FactionIndex == I32(factionIndex)
    }

    /** The pawn after a successful join: renamed and moved to the faction, notifying only on a change; nothing else touched. */
    static twostate predicate PawnJoined(pawn: Pawn.PawnComponent, response: JoinResponse, factionIndex: int)
      requires response.JoinAccepted?
      reads pawn
    {
      && pawn.UUID == old(pawn.UUID) && pawn.Description == old(pawn.Description)
      && pawn.UserID == old(pawn.UserID) && pawn.Human == old(pawn.Human)
      && pawn.FriendlyName == response.Name
      && pawn.FriendlyNameBroadcasts == old(pawn.FriendlyNameBroadcasts) + (if old(pawn.FriendlyName) != response.Name then 1 else 0)
      && pawn.FactionIndex == factionIndex
      && pawn.FactionIndexBroadcasts == old(pawn.FactionIndexBroadcasts) + (if old(pawn.FactionIndex) != factionIndex then 1 else 0)
    }

    /** The controller's share of a successful join. */
    static method JoinController(c: Player.ControllerComponent, response: JoinResponse, factionIndex: int)
      requires response.JoinAccepted?
      modifies c
      ensures ControllerJoined(c, response, factionIndex)
    {
      match response.Location {
        case Some(l) =>
          c.SetImmediateSpawnTransform(Some(Player.Transform(l.Pitch, l.Yaw, 0.0, Vector(-l.X, l.Y, l.Z))));
        case None =>
      }
      c.SetFriendlyName(response.Name);
      c.SetFactionIndex(factionIndex);
      if c.IsPlayer {
        c.SetToken(response.Token);
      } else {
        c.SetUserID(response.ID);
      }
    }

    // ---- moving between servers ----

    /**
     * What entering an area leads to. An area this server already runs
     * needs nothing; otherwise the area must be known, have a manager ID
     * (read as `int32`), and the player a user ID, before the manager is
     * asked where to send the player.
     */
    function PlayerEnterArea(areaIndex: int, playerState: Player.PlayerStateComponent, location: Vector, yaw: real, pitch: real): (r: EnterAreaOutcome)
      reads this, AdhocGameState, playerState
      ensures r == AlreadyActive <==> areaIndex in AdhocGameState.ActiveAreaIndexes
      ensures r.SubmitNavigate? <==>
        && areaIndex !in AdhocGameState.ActiveAreaIndexes
        && AdhocGameState.FindAreaByIndex(areaIndex).Some?
        && I32(AdhocGameState.Areas[AdhocGameState.FindAreaByIndex(areaIndex).value].ID) != -1
        && playerState.UserID != -1
      ensures r.SubmitNavigate? ==>
        && (exists i :: 0 <= i < |AdhocGameState.Areas| && AdhocGameState.Areas[i].Index == areaIndex &&
                        r.Request.DestinationAreaID == I32(AdhocGameState.Areas[i].ID))
        && r.Request.DestinationAreaID != -1
        && r.Request.UserID == playerState.UserID && r.Request.SourceServerID == AdhocGameState.GetServerID()
        && r.Request.X == -location.X && r.Request.Y == location.Y && r.Request.Z == location.Z
    {
      if areaIndex in AdhocGameState.ActiveAreaIndexes then AlreadyActive
      else match AdhocGameState.FindAreaByIndex(areaIndex)
        case None => AreaNotFound
        case Some(i) =>
          var areaID := I32(AdhocGameState.Areas[i].ID);
          if areaID == -1 then AreaIDUnavailable
          else if playerState.UserID == -1 then NoUserID
          else SubmitNavigate(NavigateRequest(playerState.UserID, AdhocGameState.GetServerID(), areaID,
                                              -location.X, location.Y, location.Z, yaw, pitch))
    }

    /**
     * Where a navigate response sends the player: nowhere unless it names a
     * positive server ID and port and a non-empty IP and WebSocket URL. The
     * user ID and the faction ID are printed with `%d`, so as `int32`.
     */
    function NavigateTarget(response: NavigateResponse, c: Player.ControllerComponent): (r: Option<Travel.ReconnectTarget>)
      reads this, AdhocGameState, c
      requires c.FactionIndex == -1 || 0 <= c.FactionIndex < |AdhocGameState.Factions|
      ensures r.Some? <==>
        response.NavigateAccepted? && response.DestinationServerID > 0 && response.IP != "" && response.Port > 0 && response.WebSocketURL != ""
      ensures r.Some? ==>
        && r.value.IP == response.IP && r.value.Port == response.Port && r.value.WebSocketURL == response.WebSocketURL
        && (r.value.UserID.Some? <==> c.UserID != -1)
        && (r.value.FactionID.Some? <==> c.FactionIndex != -1 && AdhocGameState.Factions[c.FactionIndex].ID != -1)
        && (r.value.Token.Some? <==> c.Token != "")
    {
      match response
      case NavigateAccepted(serverID, ip, port, webSocketURL) =>
        if serverID <= 0 || ip == "" || port <= 0 || webSocketURL == "" then None
        else
          Some(Travel.ReconnectTarget(
            ip, port, webSocketURL,
            if c.UserID != -1 then Some(I32(c.UserID)) else None,
            if c.FactionIndex != -1 && AdhocGameState.GetFaction(c.FactionIndex).ID != -1 then Some(I32(AdhocGameState.GetFaction(c.FactionIndex).ID)) else None,
            if c.Token != "" then Some(c.Token) else None))
      case _ => None
    }

    /** Assembles the travel URL option by option, as the response handler does. */
    method OnNavigateResponse(response: NavigateResponse, c: Player.ControllerComponent, hasPawn: bool) returns (outcome: NavigateOutcome)
      requires c.FactionIndex == -1 || 0 <= c.FactionIndex < |AdhocGameState.Factions|
      ensures outcome == match NavigateTarget(response, c)
                         case None => NoTravel
                         case Some(t) => ClientTravel(Travel.ReconnectURL(t), hasPawn)
    {
      if !response.NavigateAccepted? {
        return NoTravel;
      }
      if response.DestinationServerID <= 0 || response.IP == "" || response.Port <= 0 || response.WebSocketURL == "" {
        return NoTravel;
      }
      ghost var t := NavigateTarget(response, c).value;
      var url := response.IP + ":" + Decimal(response.Port);
      ghost var host := url;
      ghost var opts: seq<string> := [];
      assert url == host + Travel.JoinOptions(opts);
      Travel.AppendOption(host, opts, Travel.Opt("WebSocketURL", response.WebSocketURL));
      url := url + "?" + Travel.Opt("WebSocketURL", response.WebSocketURL);
      opts := opts + [Travel.Opt("WebSocketURL", response.WebSocketURL)];
      if c.UserID != -1 {
        Travel.AppendOption(host, opts, Travel.Opt("UserID", Decimal(I32(c.UserID))));
        url := url + "?" + Travel.Opt("UserID", Decimal(I32(c.UserID)));
        opts := opts + [Travel.Opt("UserID", Decimal(I32(c.UserID)))];
      }
      assert opts == [Travel.Opt("WebSocketURL", t.WebSocketURL)] + Travel.IntOption("UserID", t.UserID);
      if c.FactionIndex != -1 {
        var faction := AdhocGameState.GetFaction(c.FactionIndex);
        if faction.ID != -1 {
          Travel.AppendOption(host, opts, Travel.Opt("FactionID", Decimal(I32(faction.ID))));
          url := url + "?" + Travel.Opt("FactionID", Decimal(I32(faction.ID)));
          opts := opts + [Travel.Opt("FactionID", Decimal(I32(faction.ID)))];
        }
      }
      assert opts == [Travel.Opt("WebSocketURL", t.WebSocketURL)] + Travel.IntOption("UserID", t.UserID) + Travel.IntOption("FactionID", t.FactionID);
      if c.Token != "" {
        Travel.AppendOption(host, opts, Travel.Opt("Token", c.Token));
        url := url + "?" + Travel.Opt("Token", c.Token);
        opts := opts + [Travel.Opt("Token", c.Token)];
      }
      assert opts == Travel.TargetOptions(t);
      assert url == Travel.ReconnectURL(t);
      outcome := ClientTravel(url, hasPawn);
    }

    /**
     * The server the player lands on reads back the identity this one sent:
     * the WebSocket URL, the token, and the user and faction IDs as `int32`,
     * or -1 for an ID that was left off.
     */
    lemma NavigateCarriesIdentity(response: NavigateResponse, c: Player.ControllerComponent)
      requires c.FactionIndex == -1 || 0 <= c.FactionIndex < |AdhocGameState.Factions|
      requires NavigateTarget(response, c).Some? && Travel.ValidTarget(NavigateTarget(response, c).value)
      ensures var url := Travel.ReconnectURL(NavigateTarget(response, c).value);
        && Travel.FindOption(Travel.URLOptions(url), "WebSocketURL") == Some(response.WebSocketURL)
        && Travel.FindOption(Travel.URLOptions(url), "Token") == (if c.Token != "" then Some(c.Token) else None)
        && Travel.GetIntOption(url, "UserID", -1) == (if c.UserID != -1 then I32(c.UserID) else -1)
        && Travel.GetIntOption(url, "FactionID", -1) ==
             (if c.FactionIndex != -1 && AdhocGameState.Factions[c.FactionIndex].ID != -1 then I32(AdhocGameState.Factions[c.FactionIndex].ID) else -1)
    {
      var t := NavigateTarget(response, c).value;
      Travel.ReconnectOptionsReadBack(t);
      Travel.ReconnectIntOptionsReadBack(t);
    }

    /**
     * With the factions indexed and their IDs in `int32` range, the faction
     * the destination reads from the URL is the player's faction here.
     */
    lemma NavigateKeepsFaction(response: NavigateResponse, c: Player.ControllerComponent)
      requires FactionsIndexed(AdhocGameState.Factions)
      requires forall i :: 0 <= i < |AdhocGameState.Factions| ==> IsInt32(AdhocGameState.Factions[i].ID)
      requires c.FactionIndex == -1 || 0 <= c.FactionIndex < |AdhocGameState.Factions|
      requires NavigateTarget(response, c).Some? && Travel.ValidTarget(NavigateTarget(response, c).value)
      ensures JoinFactionIndex(Travel.GetIntOption(Travel.ReconnectURL(NavigateTarget(response, c).value), "FactionID", -1)) == c.FactionIndex
    {
      NavigateCarriesIdentity(response, c);
      if c.FactionIndex != -1 {
        FactionFoundByID(c.FactionIndex);
      }
    }

    // ---- the objectives upload ----

    /** The inner loop of the upload: the indexes of the linked objectives that lie in an area. */
    static method SubmitLinks(linkedObjectives: seq<ObjectiveComp.ObjectiveComponent>) returns (links: seq<int>)
      ensures links == SubmittedLinks(linkedObjectives)
    {
      links := [];
      var j := 0;
      while j < |linkedObjectives|
        invariant 0 <= j <= |linkedObjectives|
        invariant links == SubmittedLinks(linkedObjectives[..j])
      {
        var linked := linkedObjectives[j];
        if linked.AreaIndexSafe() != -1 {
          links := links + [linked.ObjectiveIndex];
        }
        assert linkedObjectives[..j + 1][..j] == linkedObjectives[..j];
        j := j + 1;
      }
      assert linkedObjectives[..j] == linkedObjectives;
    }

    /** Builds the objectives upload: one entry per objective in an area, each with its in-area links. */
    method SubmitObjectives(actors: seq<ObjectiveActor>) returns (body: seq<ObjectiveSubmission>)
      ensures body == Submissions(actors, AdhocGameState.GetRegionID())
    {
      var regionID := AdhocGameState.GetRegionID();
      body := [];
      var i := 0;
      while i < |actors|
        invariant 0 <= i <= |actors|
        invariant body == Submissions(actors[..i], regionID)
      {
        var actor := actors[i];
        var component := actor.Component;
        if component.AreaIndexSafe() != -1 {
          var links := SubmitLinks(component.LinkedObjectives);
          var initialFactionIndex := if component.InitialFactionIndex == -1 then None else Some(component.InitialFactionIndex);
          var entry := ObjectiveSubmission(regionID, component.ObjectiveIndex, component.FriendlyName,
                                           -actor.Location.X, actor.Location.Y, actor.Location.Z, Vector(1.0, 1.0, 1.0),
                                           initialFactionIndex, links, component.AreaIndexSafe());
          assert entry == Submission(actor, regionID);
          body := body + [entry];
        }
        assert actors[..i + 1][..i] == actors[..i];
        assert actors[..i + 1][i] == actor;
        i := i + 1;
      }
      assert actors[..i] == actors;
    }
  }

  /**
   * The as-written update on a concrete cache: this server (ID 1) holds its
   * own record, and an event about server 2 arrives. The own record is
   * overwritten with server 2's data, so no record for server 1 remains.
   */
  method OwnRecordOverwrittenExample() returns (ownRecordLost: bool)
    ensures ownRecordLost
  {
    var gameState := new GameStateComponent();
    gameState.SetServers([NewServer(1, true, true)]);
    var gameMode := new GameModeComponent(gameState, "");
    gameMode.OnServerUpdatedEvent(ServerUpdate(2, 1, true, true, "", "", 7777, [], []));
    ownRecordLost := |gameState.Servers| == 1 && gameState.Servers[0].ID == 2 && gameState.FindServerByIDIntended(1).None?;
  }

  /** The same event under the intended update keeps server 1's record and adds one for server 2. */
  method OwnRecordKeptExample() returns (bothRecorded: bool)
    ensures bothRecorded
  {
    var gameState := new GameStateComponent();
    gameState.SetServers([NewServer(1, true, true)]);
    var gameMode := new GameModeComponent(gameState, "");
    gameMode.OnServerUpdatedEventIntended(ServerUpdate(2, 1, true, true, "", "", 7777, [], []));
    bothRecorded := |gameState.Servers| == 2 && gameState.Servers[0].ID == 1 && gameState.Servers[1].ID == 2;
  }
}
