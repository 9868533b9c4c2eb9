/**
 * The game mode component of the older revision (`Private/` root). It seeds
 * the cache in one initialisation pass and fills in objective areas when play
 * begins. A player who arrives without a user ID and token is registered
 * rather than joined. The faction index comes straight from the manager's
 * response, and the navigate URL carries no faction.
 *
 * As in the newer revision, transport is not modelled: responses and events
 * arrive as parameters, and kicking, restarting or travelling a player is an
 * outcome tag.
 */
module GameModeLegacy {
  import opened Wrappers
  import opened Numeric
  import opened Lists
  import opened Records
  import opened GameState
  import ObjectiveComp
  import Player
  import Pawn
  import Travel
  import GameMode

  /** The four factions this revision starts with; their IDs are left at the default. */
  const StartingFactions: seq<FactionState> := [
    FactionState(Unassigned, 0, "Alpha", Color(0, 136, 255, 255), 0),
    FactionState(Unassigned, 1, "Beta", Color(255, 34, 0, 255), 0),
    FactionState(Unassigned, 2, "Gamma", Color(255, 255, 0, 255), 0),
    FactionState(Unassigned, 3, "Delta", Color(136, 0, 255, 255), 0)]

  /** A command-line value, or its default when the option is absent. */
  function CommandLineID(arg: Option<int>): (r: int)
    ensures arg.None? ==> r == 1
    ensures arg.Some? ==> r == arg.value
  {
    match arg
    case Some(v) => v
    case None => 1
  }

  /** The holder an objective starts with: its actor's faction, or the initial faction when the actor has none. */
  function StartingFactionIndex(initialFactionIndex: int, factionIndex: int): (r: int)
    ensures factionIndex != -1 ==> r == factionIndex
    ensures factionIndex == -1 ==> r == initialFactionIndex
    ensures r == -1 <==> factionIndex == -1 && initialFactionIndex == -1
  {
    if factionIndex == -1 then initialFactionIndex else factionIndex
  }

  /** The record discovery writes for the `k`-th objective actor. Its area is filled in when play begins. */
  function DiscoveredObjectiveRecord(actors: seq<GameMode.ObjectiveActor>, k: nat, regionID: int): (r: ObjectiveState)
    requires k < |actors|
    reads actors[k].Component
    ensures r.Index == k && r.RegionID == regionID && r.LinkedObjectiveIndexes == []
    ensures r.AreaIndex == Unassigned && r.InitialFactionIndex == actors[k].Component.InitialFactionIndex
    ensures r.FactionIndex == StartingFactionIndex(actors[k].Component.InitialFactionIndex, actors[k].Component.FactionIndex)
  {
    var c := actors[k].Component;
    GameMode.DiscoveredObjective(k, regionID, c.FriendlyName, actors[k].Location, c.InitialFactionIndex,
                                 StartingFactionIndex(c.InitialFactionIndex, c.FactionIndex), Unassigned)
  }

  /** A `ServerUpdated` event of this revision: a status string in place of the enabled and active flags. */
  datatype StatusUpdate = StatusUpdate(
    ServerID: int,
    RegionID: int,
    Status: string,
    PrivateIP: string,
    PublicIP: string,
    PublicWebSocketPort: int,
    AreaIDs: seq<int>,
    AreaIndexes: seq<int>)

  /**
   * A server record after an update: its ID, region, addresses and port come
   * from the event, and its area lists are rebuilt from the event's without
   * duplicates. `Version` and the enabled and active flags are kept.
   */
  function ApplyStatusUpdate(s: ServerState, ev: StatusUpdate): (r: ServerState)
    ensures r.ID == I32(ev.ServerID) && r.RegionID == I32(ev.RegionID)
    ensures r.Version == s.Version && r.Enabled == s.Enabled && r.Active == s.Active
    ensures r.PrivateIP == ev.PrivateIP && r.PublicIP == ev.PublicIP && r.PublicWebSocketPort == ev.PublicWebSocketPort
    ensures NoDup(r.AreaIDs) && NoDup(r.AreaIndexes)
    ensures forall x :: x in r.AreaIDs <==> x in ev.AreaIDs
    ensures forall x :: x in r.AreaIndexes <==> x in ev.AreaIndexes
  {
    s.(ID := I32(ev.ServerID), RegionID := I32(ev.RegionID),
       PrivateIP := ev.PrivateIP, PublicIP := ev.PublicIP, PublicWebSocketPort := ev.PublicWebSocketPort,
       AreaIDs := Dedup(ev.AreaIDs), AreaIndexes := Dedup(ev.AreaIndexes))
  }

  /** Applying the same update twice is applying it once. */
  lemma ApplyStatusUpdateIdempotent(s: ServerState, ev: StatusUpdate)
    ensures ApplyStatusUpdate(ApplyStatusUpdate(s, ev), ev) == ApplyStatusUpdate(s, ev)
  {
  }

  /** What the login hands to the manager: a join with the player's credentials, or a registration. */
  datatype LoginBody = UserJoin(UserID: int, ServerID: int, Token: string) | UserRegister(ServerID: int)

  /** A request together with whether a failed response kicks the player. */
  datatype LoginRequest = LoginRequest(Body: LoginBody, KickOnFailure: bool)

  /**
   * A `join` or `register` response: a failed request or non-200 status, a
   * body that is not JSON, or the user's record. `FactionIndex` is read as
   * `int32`. `Location` is present only when the server ID and all five
   * coordinates are.
   */
  datatype JoinResponse =
    | JoinFailed
    | JoinUnreadable
    | JoinAccepted(ID: int, FactionID: int, FactionIndex: int, Name: string, Token: string, Location: Option<GameMode.ResumeLocation>)

  /** How a login ends: a failure, with the player kicked or not, or a success, restarting the player at once or not. */
  datatype JoinOutcome = JoinFailure(Kicked: bool) | JoinSuccess(RestartPlayer: bool)

  /**
   * One step of the `BeginPlay` loop: finds the record with the objective's
   * index, which is the first one with it in `before` since the indexes have
   * not changed, and stores the area index there.
   */
  method StoreObjectiveArea(gs: GameStateComponent, ghost before: seq<ObjectiveState>, index: int, areaIndex: int, ghost pos: nat)
    requires |gs.Objectives| == |before| && forall p :: 0 <= p < |before| ==> gs.Objectives[p].Index == before[p].Index
    requires pos < |before| && before[pos].Index == index && forall j :: 0 <= j < pos ==> before[j].Index != index
    modifies gs`Objectives
    ensures gs.Objectives == old(gs.Objectives)[pos := old(gs.Objectives)[pos].(AreaIndex := areaIndex)]
  {
    var found := gs.FindObjectiveByIndex(index);
    FirstByIndexUnique(before, gs.Objectives, index, Some(pos), found);
    var p := found.value;
    gs.Objectives := gs.Objectives[p := gs.Objectives[p].(AreaIndex := areaIndex)];
  }

  /** Two record sequences with the same indexes, position by position, agree on where the first record with `index` is. */
  lemma FirstByIndexUnique(a: seq<ObjectiveState>, b: seq<ObjectiveState>, index: int, ra: Option<nat>, rb: Option<nat>)
    requires |a| == |b| && forall p :: 0 <= p < |a| ==> a[p].Index == b[p].Index
    requires ra.Some? && ra.value < |a| && a[ra.value].Index == index && forall j :: 0 <= j < ra.value ==> a[j].Index != index
    requires rb.Some? ==> rb.value < |b| && b[rb.value].Index == index && forall j :: 0 <= j < rb.value ==> b[j].Index != index
    requires rb.None? ==> forall j :: 0 <= j < |b| ==> b[j].Index != index
    ensures rb == ra
  {
  }

  class GameModeComponent {
    const AdhocGameState: GameStateComponent
    var PrivateIP: string

    constructor (gameState: GameStateComponent, privateIP: string)
      ensures AdhocGameState == gameState && PrivateIP == privateIP
    {
      AdhocGameState := gameState;
      PrivateIP := privateIP;
    }

    // ---- initialisation ----

    /**
     * Seeds the cache from the level. The server and region IDs come from
     * the command line, defaulting to 1. The four starting factions are set.
     * The areas and objectives are numbered 0, 1, ... in iteration order, with
     * only the first area active and a fallback area when there is none. This
     * server is assumed to be the only one, and each objective's links are
     * stored as indexes, without duplicates.
     */
    method InitializeComponent(serverIDArg: Option<int>, regionIDArg: Option<int>,
                               volumes: seq<GameMode.AreaVolume>, actors: seq<GameMode.ObjectiveActor>)
      requires forall i, j :: 0 <= i < j < |volumes| ==> volumes[i].Component != volumes[j].Component
      requires forall i, j :: 0 <= i < j < |actors| ==> actors[i].Component != actors[j].Component
      modifies AdhocGameState, GameMode.AreaComponents(volumes)`AreaIndex, GameMode.ObjectiveComponents(actors)`ObjectiveIndex
      ensures AdhocGameState.ServerID == CommandLineID(serverIDArg) && AdhocGameState.RegionID == CommandLineID(regionIDArg)
      ensures AdhocGameState.Factions == StartingFactions
      ensures forall k :: 0 <= k < |volumes| ==> volumes[k].Component.AreaIndex == k
      ensures |volumes| > 0 ==>
        && |AdhocGameState.Areas| == |volumes|
        && forall k :: 0 <= k < |volumes| ==>
             AdhocGameState.Areas[k] == GameMode.DiscoveredArea(volumes[k].Component.FriendlyName, volumes[k].Location,
                                                                GameMode.VolumeSize(volumes[k].Scale), k, AdhocGameState.RegionID, AdhocGameState.ServerID)
      ensures |volumes| == 0 ==> AdhocGameState.Areas == [GameMode.FallbackArea(AdhocGameState.RegionID, AdhocGameState.ServerID)]
      ensures AdhocGameState.ActiveAreaIndexes == [0]
      ensures |AdhocGameState.Servers| == 1
      ensures var s := AdhocGameState.Servers[0];
        && s.ID == AdhocGameState.ServerID && s.RegionID == AdhocGameState.RegionID && s.Version == Unassigned
        && s.AreaIDs == [] && s.AreaIndexes == [0]
        && s.PrivateIP == PrivateIP && s.PublicIP == PrivateIP && s.PublicWebSocketPort == GameMode.DefaultWebSocketPort
      ensures forall k :: 0 <= k < |actors| ==> actors[k].Component.ObjectiveIndex == k
      ensures |AdhocGameState.Objectives| == |actors|
      ensures forall k :: 0 <= k < |actors| ==>
        AdhocGameState.Objectives[k] ==
          DiscoveredObjectiveRecord(actors, k, AdhocGameState.RegionID).(LinkedObjectiveIndexes := Dedup(GameMode.LinkIndexes(actors[k].Component.LinkedObjectives)))
    {
      var serverID := CommandLineID(serverIDArg);
      var regionID := CommandLineID(regionIDArg);
      AdhocGameState.SetServerID(serverID);
      AdhocGameState.SetRegionID(regionID);
      AdhocGameState.SetFactions(StartingFactions);
      DiscoverAreas(serverID, regionID, volumes);
      SeedServer();
      SeedObjectives(regionID, actors);
    }

    /** Records this server as the only one, managing the active areas and reachable at the private IP. */
    method SeedServer()
      modifies AdhocGameState`Servers
      ensures |AdhocGameState.Servers| == 1
      ensures var s := AdhocGameState.Servers[0];
        && s.ID == AdhocGameState.ServerID && s.RegionID == AdhocGameState.RegionID && s.Version == Unassigned
        && s.AreaIDs == [] && s.AreaIndexes == AdhocGameState.ActiveAreaIndexes
        && s.PrivateIP == PrivateIP && s.PublicIP == PrivateIP && s.PublicWebSocketPort == GameMode.DefaultWebSocketPort
    {
      var enabled: bool :| true;
      var busy: bool :| true;
      var server := NewServer(AdhocGameState.ServerID, enabled, busy).(RegionID := AdhocGameState.RegionID, AreaIndexes := AdhocGameState.ActiveAreaIndexes);
      server := server.(PrivateIP := PrivateIP, PublicIP := PrivateIP, PublicWebSocketPort := GameMode.DefaultWebSocketPort);
      AdhocGameState.SetServers([server]);
    }

    /** The objective passes of initialisation: numbering, one record per actor, then the links. */
    method SeedObjectives(regionID: int, actors: seq<GameMode.ObjectiveActor>)
      requires forall i, j :: 0 <= i < j < |actors| ==> actors[i].Component != actors[j].Component
      modifies AdhocGameState`Objectives, GameMode.ObjectiveComponents(actors)`ObjectiveIndex
      ensures forall k :: 0 <= k < |actors| ==> actors[k].Component.ObjectiveIndex == k
      ensures |AdhocGameState.Objectives| == |actors|
      ensures forall k :: 0 <= k < |actors| ==>
        AdhocGameState.Objectives[k] ==
          DiscoveredObjectiveRecord(actors, k, regionID).(LinkedObjectiveIndexes := Dedup(GameMode.LinkIndexes(actors[k].Component.LinkedObjectives)))
    {
      var objectives := DiscoverObjectives(regionID, actors);
      AdhocGameState.SetObjectives(objectives);
      ghost var first := AdhocGameState.Objectives;
      label numbered:
      LinkDiscoveredObjectives(regionID, actors);
      forall k | 0 <= k < |actors|
        ensures first[k] == DiscoveredObjectiveRecord(actors, k, regionID)
      {
        assert first[k] == old@numbered(DiscoveredObjectiveRecord(actors, k, regionID));
      }
    }

    /** The area pass: numbers the volumes and records one area each, or the fallback area. */
    method DiscoverAreas(serverID: int, regionID: int, volumes: seq<GameMode.AreaVolume>)
      requires forall i, j :: 0 <= i < j < |volumes| ==> volumes[i].Component != volumes[j].Component
      modifies AdhocGameState`Areas, AdhocGameState`ActiveAreaIndexes, GameMode.AreaComponents(volumes)`AreaIndex
      ensures forall k :: 0 <= k < |volumes| ==> volumes[k].Component.AreaIndex == k
      ensures |volumes| > 0 ==>
        && |AdhocGameState.Areas| == |volumes|
        && forall k :: 0 <= k < |volumes| ==>
             AdhocGameState.Areas[k] == GameMode.DiscoveredArea(volumes[k].Component.FriendlyName, volumes[k].Location,
                                                                GameMode.VolumeSize(volumes[k].Scale), k, regionID, serverID)
      ensures |volumes| == 0 ==> AdhocGameState.Areas == [GameMode.FallbackArea(regionID, serverID)]
      ensures AdhocGameState.ActiveAreaIndexes == [0]
    {
      var areas, active := GameMode.NumberAreas(volumes, regionID, serverID);
      AdhocGameState.SetAreas(areas);
      AdhocGameState.SetActiveAreaIndexes(active);
    }

    /** The numbering pass over the objective actors. */
    method DiscoverObjectives(regionID: int, actors: seq<GameMode.ObjectiveActor>) returns (objectives: seq<ObjectiveState>)
      requires forall i, j :: 0 <= i < j < |actors| ==> actors[i].Component != actors[j].Component
      modifies GameMode.ObjectiveComponents(actors)`ObjectiveIndex
      ensures forall k :: 0 <= k < |actors| ==> actors[k].Component.ObjectiveIndex == k
      ensures |objectives| == |actors|
      ensures forall k :: 0 <= k < |actors| ==> objectives[k] == DiscoveredObjectiveRecord(actors, k, regionID)
    {
      var index := 0;
      objectives := [];
      while index < |actors|
        invariant 0 <= index <= |actors|
        invariant |objectives| == index
        invariant forall k :: 0 <= k < index ==> actors[k].Component.ObjectiveIndex == k
        invariant forall k :: 0 <= k < index ==> objectives[k] == DiscoveredObjectiveRecord(actors, k, regionID)
      {
        var actor := actors[index];
        var c := actor.Component;
        c.SetObjectiveIndex(index);
        var factionIndex := if c.FactionIndex == -1 then c.InitialFactionIndex else c.FactionIndex;
        var objective := GameMode.DiscoveredObjective(c.ObjectiveIndex, regionID, c.FriendlyName, actor.Location,
                                                      c.InitialFactionIndex, factionIndex, Unassigned);
        objectives := objectives + [objective];
        index := index + 1;
      }
    }

    /**
     * The linking pass: looks each component's record up by region and
     * index, which always finds its own, and stores the linked components'
     * indexes there without duplicates.
     */
    method LinkDiscoveredObjectives(regionID: int, actors: seq<GameMode.ObjectiveActor>)
      requires |AdhocGameState.Objectives| == |actors|
      requires forall k :: 0 <= k < |actors| ==> actors[k].Component.ObjectiveIndex == k
      requires forall k :: 0 <= k < |actors| ==> AdhocGameState.Objectives[k].Index == k && AdhocGameState.Objectives[k].RegionID == regionID
      modifies AdhocGameState`Objectives
      ensures |AdhocGameState.Objectives| == |actors|
      ensures forall k :: 0 <= k < |actors| ==>
        AdhocGameState.Objectives[k] ==
          old(AdhocGameState.Objectives[k]).(LinkedObjectiveIndexes := Dedup(GameMode.LinkIndexes(actors[k].Component.LinkedObjectives)))
    {
      GameMode.LinkAll(AdhocGameState, regionID, actors);
    }

    /**
     * When play begins, each objective actor's record, looked up by the
     * actor's index, takes the index of the area the actor lies in (-1 for
     * none). Every record must be found, and the actors' indexes are distinct,
     * as discovery leaves them; records no actor names are untouched.
     */
    method BeginPlay(actors: seq<GameMode.ObjectiveActor>)
      requires forall i, j :: 0 <= i < j < |actors| ==> actors[i].Component.ObjectiveIndex != actors[j].Component.ObjectiveIndex
      requires forall k :: 0 <= k < |actors| ==> AdhocGameState.FindObjectiveByIndex(actors[k].Component.ObjectiveIndex).Some?
      modifies AdhocGameState`Objectives
      ensures |AdhocGameState.Objectives| == |old(AdhocGameState.Objectives)|
      ensures forall k :: 0 <= k < |actors| ==>
        var p := old(AdhocGameState.FindObjectiveByIndex(actors[k].Component.ObjectiveIndex)).value;
        AdhocGameState.Objectives[p] == old(AdhocGameState.Objectives[p]).(AreaIndex := old(actors[k].Component.AreaIndexSafe()))
      ensures forall p :: 0 <= p < |AdhocGameState.Objectives| &&
                          (forall k :: 0 <= k < |actors| ==> old(actors[k].Component.ObjectiveIndex) != AdhocGameState.Objectives[p].Index) ==>
        AdhocGameState.Objectives[p] == old(AdhocGameState.Objectives[p])
    {
      ghost var keys := seq(|actors|, k requires 0 <= k < |actors| reads * => actors[k].Component.ObjectiveIndex);
      ghost var areas := seq(|actors|, k requires 0 <= k < |actors| reads * => actors[k].Component.AreaIndexSafe());
      ghost var positions := seq(|actors|, k requires 0 <= k < |actors| reads * =>
                                             if AdhocGameState.FindObjectiveByIndex(actors[k].Component.ObjectiveIndex).Some?
                                             then AdhocGameState.FindObjectiveByIndex(actors[k].Component.ObjectiveIndex).value else 0);
      FillAreaIndexes(actors, keys, areas, positions);
    }

    /** The loop of `BeginPlay`, over the actors' indexes, areas and record positions as they stand when it starts. */
    method FillAreaIndexes(actors: seq<GameMode.ObjectiveActor>, ghost keys: seq<int>, ghost areas: seq<int>, ghost positions: seq<nat>)
      requires |keys| == |actors| && |areas| == |actors| && |positions| == |actors|
      requires forall k :: 0 <= k < |actors| ==> keys[k] == actors[k].Component.ObjectiveIndex && areas[k] == actors[k].Component.AreaIndexSafe()
      requires forall k :: 0 <= k < |actors| ==>
        && positions[k] < |AdhocGameState.Objectives| && AdhocGameState.Objectives[positions[k]].Index == keys[k]
        && forall j :: 0 <= j < positions[k] ==> AdhocGameState.Objectives[j].Index != keys[k]
      requires forall k, j :: 0 <= k < j < |actors| ==> keys[k] != keys[j]
      modifies AdhocGameState`Objectives
      ensures |AdhocGameState.Objectives| == |old(AdhocGameState.Objectives)|
      ensures forall k :: 0 <= k < |actors| ==> AdhocGameState.Objectives[positions[k]] == old(AdhocGameState.Objectives[positions[k]]).(AreaIndex := areas[k])
      ensures forall p :: 0 <= p < |AdhocGameState.Objectives| && (forall k :: 0 <= k < |actors| ==> keys[k] != AdhocGameState.Objectives[p].Index) ==>
        AdhocGameState.Objectives[p] == old(AdhocGameState.Objectives[p])
    {
      ghost var before := AdhocGameState.Objectives;
      ghost var objs := before;
      var i := 0;
      while i < |actors|
        invariant 0 <= i <= |actors|
        invariant AdhocGameState.Objectives == objs
        invariant |objs| == |before|
        invariant forall p :: 0 <= p < |before| ==> objs[p].Index == before[p].Index
        invariant forall k :: 0 <= k < |actors| ==> keys[k] == actors[k].Component.ObjectiveIndex && areas[k] == actors[k].Component.AreaIndexSafe()
        invariant forall k :: 0 <= k < i ==> objs[positions[k]] == before[positions[k]].(AreaIndex := areas[k])
        invariant forall p :: 0 <= p < |before| && (forall k :: 0 <= k < i ==> keys[k] != before[p].Index) ==> objs[p] == before[p]
      {
        var c := actors[i].Component;
        var areaIndex := c.AreaIndexSafe();
        StoreObjectiveArea(AdhocGameState, before, c.ObjectiveIndex, areaIndex, positions[i]);
        objs := objs[positions[i] := objs[positions[i]].(AreaIndex := areaIndex)];
        i := i + 1;
      }
    }

    // ---- logging in ----

    /**
     * Puts the arriving player in a faction picked at random among those
     * known (the first, 0, when none is) and stores the user ID and token the
     * player's options carried on the controller.
     */
    method Login(c: Player.ControllerComponent, playerState: Player.PlayerStateComponent, userID: int, token: string)
      requires IsInt32(userID) && IsInt32(AdhocGameState.GetNumFactions())
      modifies c`FactionIndex, c`FactionIndexBroadcasts, c`UserID, c`Token, playerState`FactionIndex
      ensures AdhocGameState.GetNumFactions() == 0 ==> playerState.FactionIndex == 0
      ensures AdhocGameState.GetNumFactions() > 0 ==> 0 <= playerState.FactionIndex < AdhocGameState.GetNumFactions()
      ensures c.FactionIndex == playerState.FactionIndex
      ensures c.UserID == userID && c.Token == token
      ensures PostLogin(c) ==
        if userID != -1 && token != "" then LoginRequest(UserJoin(userID, AdhocGameState.GetServerID(), token), true)
        else LoginRequest(UserRegister(AdhocGameState.GetServerID()), false)
    {
      var numFactions := AdhocGameState.GetNumFactions();
      var pick: int :| if numFactions <= 0 then pick == 0 else 0 <= pick < numFactions;
      playerState.SetFactionIndex(pick);
      c.SetFactionIndex(pick);
      c.SetUserID(userID);
      c.SetToken(token);
    }

    /**
     * After login, a player with both a user ID and a token joins under
     * them; any other player is registered afresh. Only a failed join kicks
     * the player.
     */
    function PostLogin(c: Player.ControllerComponent): (r: LoginRequest)
      reads this, AdhocGameState, c
      ensures r.Body.UserJoin? <==> I32(c.UserID) != -1 && c.Token != ""
      ensures r.KickOnFailure <==> r.Body.UserJoin?
      ensures r.Body.ServerID == AdhocGameState.GetServerID()
      ensures r.Body.UserJoin? ==> r.Body.UserID == I32(c.UserID) && r.Body.Token == c.Token
    {
      if I32(c.UserID) != -1 && c.Token != "" then LoginRequest(UserJoin(I32(c.UserID), AdhocGameState.GetServerID(), c.Token), true)
      else LoginRequest(UserRegister(AdhocGameState.GetServerID()), false)
    }

    /**
     * Handles a `join` or `register` response. A failure kicks the player
     * when asked to and changes nothing. A success stores the user on the
     * player state, and the token and the response's faction index on the
     * controller. It moves the pawn, if any, to that faction and records where
     * a returning player should spawn. The player restarts at once when a
     * spawn transform is set and the controller has begun play.
     */
    method OnUserJoinResponse(response: JoinResponse, c: Player.ControllerComponent, playerState: Player.PlayerStateComponent,
                              pawn: Pawn.PawnComponent?, kickOnFailure: bool, hasBegunPlay: bool) returns (outcome: JoinOutcome)
      modifies c, playerState, pawn
      ensures !response.JoinAccepted? ==>
        && outcome == JoinFailure(kickOnFailure)
        && unchanged(c) && unchanged(playerState)
        && (pawn != null ==> unchanged(pawn))
      ensures response.JoinAccepted? ==>
        && outcome == JoinSuccess(c.ImmediateSpawnTransform.Some? && hasBegunPlay)
        && ControllerJoined(c, response)
        && playerState.PlayerName == response.Name
        && playerState.UserID == I32(response.ID)
        && playerState.FactionIndex == I32(response.FactionIndex)
        && (pawn != null ==> PawnJoined(pawn, response))
    {
      if !response.JoinAccepted? {
        return JoinFailure(kickOnFailure);
      }
      var factionIndex := I32(response.FactionIndex);
      playerState.SetPlayerName(response.Name);
      playerState.SetUserID(response.ID);
      playerState.SetFactionIndex(factionIndex);
      JoinController(c, response);
      if pawn != null {
        JoinPawn(pawn, response);
      }
      outcome := JoinSuccess(c.ImmediateSpawnTransform.Some? && hasBegunPlay);
    }

    /** The controller's share of a successful login. */
    static method JoinController(c: Player.ControllerComponent, response: JoinResponse)
      requires response.JoinAccepted?
      modifies c
      ensures ControllerJoined(c, response)
    {
      match response.Location {
        case Some(l) =>
          c.SetImmediateSpawnTransform(Some(Player.Transform(l.Pitch, l.Yaw, 0.0, Vector(-l.X, l.Y, l.Z))));
        case None =>
      }
      var factionIndex := I32(response.FactionIndex);
      I32Idempotent(response.FactionIndex);
      c.SetFactionIndex(factionIndex);
      c.SetToken(response.Token);
    }

    /** The pawn's share of a successful login. */
    static method JoinPawn(pawn: Pawn.PawnComponent, response: JoinResponse)
      requires response.JoinAccepted?
      modifies pawn
      ensures PawnJoined(pawn, response)
    {
      pawn.SetFactionIndex(I32(response.FactionIndex));
    }

    /**
     * A successful login as the controller sees it: in the response's
     * faction, holding the response's token, and with a spawn transform when
     * the user is resuming. Its name and user ID are not touched.
     */
    static twostate predicate ControllerJoined(c: Player.ControllerComponent, response: JoinResponse)
      requires response.JoinAccepted?
      reads c
    {
      && c.FactionIndex == I32(response.FactionIndex)
      && c.FactionIndexBroadcasts == old(c.FactionIndexBroadcasts) + (if old(c.FactionIndex) != I32(response.FactionIndex) then 1 else 0)
      && c.Token == response.Token
      && c.FriendlyName == old(c.FriendlyName) && c.FriendlyNameBroadcasts == old(c.FriendlyNameBroadcasts)
      && c.UserID == old(c.UserID)
      && c.ImmediateSpawnTransform == (match response.Location
                                       case Some(l) => Some(GameMode.SpawnTransform(l))
                                       case None => old(c.ImmediateSpawnTransform))
    }

    /** The pawn after a successful login: moved to the faction, notifying only on a change; nothing else touched. */
    static twostate predicate PawnJoined(pawn: Pawn.PawnComponent, response: JoinResponse)
      requires response.JoinAccepted?
      reads pawn
    {
      && pawn.UUID == old(pawn.UUID) && pawn.Description == old(pawn.Description)
      && pawn.UserID == old(pawn.UserID) && pawn.Human == old(pawn.Human)
      && pawn.FriendlyName == old(pawn.FriendlyName) && pawn.FriendlyNameBroadcasts == old(pawn.FriendlyNameBroadcasts)
      && pawn.FactionIndex == I32(response.FactionIndex)
      && pawn.FactionIndexBroadcasts == old(pawn.FactionIndexBroadcasts) + (if old(pawn.FactionIndex) != I32(response.FactionIndex) then 1 else 0)
    }

    // ---- the manager's server events ----

    /** Replaces the active areas, but only with indexes for this server's own region. */
    method SetActiveAreas(regionID: int, areaIndexes: seq<int>)
      modifies AdhocGameState`ActiveAreaIndexes
      ensures AdhocGameState.ActiveAreaIndexes == if regionID == AdhocGameState.GetRegionID() then areaIndexes else old(AdhocGameState.ActiveAreaIndexes)
    {
      if regionID != AdhocGameState.GetRegionID() {
        return;
      }
      AdhocGameState.SetActiveAreaIndexes(areaIndexes);
    }

    /**
     * Overwrites the record the upsert returns with the event's fields. As in
     * the newer revision, that is this server's own record whenever one
     * exists. The active areas follow the event only when it names this
     * server and this region.
     */
    method OnServerUpdatedEvent(ev: StatusUpdate)
      modifies AdhocGameState`Servers, AdhocGameState`ActiveAreaIndexes
      ensures var found := old(AdhocGameState.FindServerByID(I32(ev.ServerID)));
        && (found.Some? ==> AdhocGameState.Servers == old(AdhocGameState.Servers)[found.value := ApplyStatusUpdate(old(AdhocGameState.Servers)[found.value], ev)])
        && (found.None? ==>
              && |AdhocGameState.Servers| == |old(AdhocGameState.Servers)| + 1
              && AdhocGameState.Servers[..|old(AdhocGameState.Servers)|] == old(AdhocGameState.Servers)
              && var s := AdhocGameState.Servers[|old(AdhocGameState.Servers)|];
                 s == ApplyStatusUpdate(NewServer(I32(ev.ServerID), s.Enabled, s.Active), ev))
      ensures AdhocGameState.ActiveAreaIndexes ==
        if I32(ev.ServerID) == AdhocGameState.GetServerID() && I32(ev.RegionID) == AdhocGameState.GetRegionID() then ev.AreaIndexes
        else old(AdhocGameState.ActiveAreaIndexes)
    {
      var serverID := I32(ev.ServerID);
      var i := AdhocGameState.FindOrInsertServerByID(serverID);
      var areaIDs := AddUniqueAll(ev.AreaIDs);
      var areaIndexes := AddUniqueAll(ev.AreaIndexes);
      var server := AdhocGameState.Servers[i];
      server := server.(ID := serverID, RegionID := I32(ev.RegionID));
      server := server.(PrivateIP := ev.PrivateIP, PublicIP := ev.PublicIP, PublicWebSocketPort := ev.PublicWebSocketPort);
      server := server.(AreaIDs := areaIDs, AreaIndexes := areaIndexes);
      AdhocGameState.Servers := AdhocGameState.Servers[i := server];
      if serverID == AdhocGameState.GetServerID() {
        SetActiveAreas(I32(ev.RegionID), ev.AreaIndexes);
      }
    }

    // ---- moving between servers ----

    /**
     * Where a navigate response sends the player: nowhere unless it names a
     * positive server ID and port and a non-empty IP and WebSocket URL. Only
     * the user ID (as `int32`) and the token follow; no faction is sent.
     */
    function NavigateTarget(response: GameMode.NavigateResponse, c: Player.ControllerComponent): (r: Option<Travel.ReconnectTarget>)
      reads c
      ensures r.Some? <==>
        response.NavigateAccepted? && response.DestinationServerID > 0 && response.IP != "" && response.Port > 0 && response.WebSocketURL != ""
      ensures r.Some? ==>
        && r.value.IP == response.IP && r.value.Port == response.Port && r.value.WebSocketURL == response.WebSocketURL
        && (r.value.UserID.Some? <==> I32(c.UserID) != -1)
        && r.value.FactionID.None?
        && (r.value.Token.Some? <==> c.Token != "")
    {
      match response
      case NavigateAccepted(serverID, ip, port, webSocketURL) =>
        if serverID <= 0 || ip == "" || port <= 0 || webSocketURL == "" then None
        else
          Some(Travel.ReconnectTarget(
            ip, port, webSocketURL,
            if I32(c.UserID) != -1 then Some(I32(c.UserID)) else None,
            None,
            if c.Token != "" then Some(c.Token) else None))
      case _ => None
    }

    /** Assembles the travel URL option by option, as the response handler does. */
    method OnNavigateResponse(response: GameMode.NavigateResponse, c: Player.ControllerComponent, hasPawn: bool) returns (outcome: GameMode.NavigateOutcome)
      ensures outcome == match NavigateTarget(response, c)
                         case None => GameMode.NoTravel
                         case Some(t) => GameMode.ClientTravel(Travel.ReconnectURL(t), hasPawn)
    {
      if !response.NavigateAccepted? {
        return GameMode.NoTravel;
      }
      if response.DestinationServerID <= 0 || response.IP == "" || response.Port <= 0 || response.WebSocketURL == "" {
        return GameMode.NoTravel;
      }
      ghost var t := NavigateTarget(response, c).value;
      var url := response.IP + ":" + Decimal(response.Port);
      ghost var host := url;
      ghost var opts: seq<string> := [];
      assert url == host + Travel.JoinOptions(opts);
      Travel.AppendOption(host, opts, Travel.Opt("WebSocketURL", response.WebSocketURL));
      url := url + "?" + Travel.Opt("WebSocketURL", response.WebSocketURL);
      opts := opts + [Travel.Opt("WebSocketURL", response.WebSocketURL)];
      var userID := I32(c.UserID);
      if userID != -1 {
        Travel.AppendOption(host, opts, Travel.Opt("UserID", Decimal(userID)));
        url := url + "?" + Travel.Opt("UserID", Decimal(userID));
        opts := opts + [Travel.Opt("UserID", Decimal(userID))];
      }
      assert opts == [Travel.Opt("WebSocketURL", t.WebSocketURL)] + Travel.IntOption("UserID", t.UserID) + Travel.IntOption("FactionID", t.FactionID);
      if c.Token != "" {
        Travel.AppendOption(host, opts, Travel.Opt("Token", c.Token));
        url := url + "?" + Travel.Opt("Token", c.Token);
        opts := opts + [Travel.Opt("Token", c.Token)];
      }
      assert opts == Travel.TargetOptions(t);
      assert url == Travel.ReconnectURL(t);
      outcome := GameMode.ClientTravel(url, hasPawn);
    }

    /**
     * The server the player lands on reads back the WebSocket URL, the token
     * and the user ID (or -1 when it was left off), but never a faction, so
     * it falls back to -1 there. The user ID is read under the key the older
     * `Login` asks for, `UserId`, which the lookup matches against the
     * `UserID` written here because it ignores case.
     */
    lemma NavigateCarriesIdentity(response: GameMode.NavigateResponse, c: Player.ControllerComponent)
      requires NavigateTarget(response, c).Some? && Travel.ValidTarget(NavigateTarget(response, c).value)
      ensures var url := Travel.ReconnectURL(NavigateTarget(response, c).value);
        && Travel.FindOption(Travel.URLOptions(url), "WebSocketURL") == Some(response.WebSocketURL)
        && Travel.FindOption(Travel.URLOptions(url), "Token") == (if c.Token != "" then Some(c.Token) else None)
        && Travel.GetIntOption(url, "UserId", -1) == I32(c.UserID)
        && Travel.FindOption(Travel.URLOptions(url), "FactionID").None?
        && Travel.GetIntOption(url, "FactionID", -1) == -1
    {
      var t := NavigateTarget(response, c).value;
      Travel.ReconnectOptionsReadBack(t);
      Travel.ReconnectIntOptionsReadBack(t);
      Travel.GetIntOptionSameKey(Travel.ReconnectURL(t), "UserId", "UserID", -1);
    }
  }
}
