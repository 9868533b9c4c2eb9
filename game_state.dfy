/**
 * The per-node world-state cache (`UAdhocGameStateComponent`): this node's
 * server and region IDs, its active area indexes, and the faction, area,
 * objective and server records, together with the lookups over them and the
 * objective-capture rule.
 *
 * A pointer to a record is modelled as its position in the sequence, so that
 * callers can update the record in place.
 */
module GameState {
  import opened Wrappers
  import opened Numeric
  import opened Lists
  import opened Records

  class GameStateComponent {
    var ServerID: int
    var RegionID: int
    var ActiveAreaIndexes: seq<int>
    var Factions: seq<FactionState>
    var Areas: seq<AreaState>
    var Objectives: seq<ObjectiveState>
    var Servers: seq<ServerState>

    constructor ()
      ensures ServerID == 1 && RegionID == 1
      ensures ActiveAreaIndexes == []
      ensures Factions == [] && Areas == [] && Objectives == [] && Servers == []
    {
      ServerID := 1;
      RegionID := 1;
      ActiveAreaIndexes := [];
      Factions := [];
      Areas := [];
      Objectives := [];
      Servers := [];
    }

    // ---- inline accessors of the header ----

    /** `GetServerID` returns `int32` although the field is `int64`. */
    function GetServerID(): (r: int)
      reads this
      ensures IsInt32(r)
      ensures (ServerID - r) % TWO_32 == 0
      ensures IsInt32(ServerID) ==> r == ServerID
    {
      I32(ServerID)
    }

    /** `GetRegionID` returns `int32` although the field is `int64`. */
    function GetRegionID(): (r: int)
      reads this
      ensures IsInt32(r)
      ensures (RegionID - r) % TWO_32 == 0
      ensures IsInt32(RegionID) ==> r == RegionID
    {
      I32(RegionID)
    }

    method SetServerID(id: int)
      modifies this`ServerID
      ensures ServerID == id
    {
      ServerID := id;
    }

    method SetRegionID(id: int)
      modifies this`RegionID
      ensures RegionID == id
    {
      RegionID := id;
    }

    method SetActiveAreaIndexes(indexes: seq<int>)
      modifies this`ActiveAreaIndexes
      ensures ActiveAreaIndexes == indexes
    {
      ActiveAreaIndexes := indexes;
    }

    function GetNumFactions(): (n: nat)
      reads this
      ensures n == |Factions|
    {
      |Factions|
    }

    /** A direct array index: the caller must pass a valid faction index. */
    function GetFaction(i: int): (f: FactionState)
      reads this
      requires 0 <= i < |Factions|
      ensures f in Factions
      ensures f.Color == GetFactionColorSafe(i)
    {
      Factions[i]
    }

    // ---- whole-collection replacement ----

    method SetFactions(xs: seq<FactionState>)
      modifies this`Factions
      ensures Factions == xs
    {
      Factions := [];
      Factions := Factions + xs;
    }

    method SetObjectives(xs: seq<ObjectiveState>)
      modifies this`Objectives
      ensures Objectives == xs
    {
      Objectives := [];
      Objectives := Objectives + xs;
    }

    method SetAreas(xs: seq<AreaState>)
      modifies this`Areas
      ensures Areas == xs
    {
      Areas := [];
      Areas := Areas + xs;
    }

    method SetServers(xs: seq<ServerState>)
      modifies this`Servers
      ensures Servers == xs
    {
      Servers := [];
      Servers := Servers + xs;
    }

    // ---- lookups: the first record whose key matches, or None ----

    function FindFactionByID(id: int): (r: Option<nat>)
      reads this
      ensures r.Some? ==> r.value < |Factions| && Factions[r.value].ID == id
      ensures r.Some? ==> forall j :: 0 <= j < r.value ==> Factions[j].ID != id
      ensures r.None? <==> forall j :: 0 <= j < |Factions| ==> Factions[j].ID != id
    {
      FirstMatch(Factions, (f: FactionState) => f.ID == id)
    }

    function FindAreaByID(id: int): (r: Option<nat>)
      reads this
      ensures r.Some? ==> r.value < |Areas| && Areas[r.value].ID == id
      ensures r.Some? ==> forall j :: 0 <= j < r.value ==> Areas[j].ID != id
      ensures r.None? <==> forall j :: 0 <= j < |Areas| ==> Areas[j].ID != id
    {
      FirstMatch(Areas, (a: AreaState) => a.ID == id)
    }

    function FindAreaByIndex(index: int): (r: Option<nat>)
      reads this
      ensures r.Some? ==> r.value < |Areas| && Areas[r.value].Index == index
      ensures r.Some? ==> forall j :: 0 <= j < r.value ==> Areas[j].Index != index
      ensures r.None? <==> forall j :: 0 <= j < |Areas| ==> Areas[j].Index != index
    {
      FirstMatch(Areas, (a: AreaState) => a.Index == index)
    }

    function FindAreaByRegionIDAndIndex(regionID: int, index: int): (r: Option<nat>)
      reads this
      ensures r.Some? ==> r.value < |Areas| && Areas[r.value].RegionID == regionID && Areas[r.value].Index == index
      ensures r.Some? ==> forall j :: 0 <= j < r.value ==> !(Areas[j].RegionID == regionID && Areas[j].Index == index)
      ensures r.None? <==> forall j :: 0 <= j < |Areas| ==> !(Areas[j].RegionID == regionID && Areas[j].Index == index)
    {
      FirstMatch(Areas, (a: AreaState) => a.RegionID == regionID && a.Index == index)
    }

    function FindObjectiveByID(id: int): (r: Option<nat>)
      reads this
      ensures r.Some? ==> r.value < |Objectives| && Objectives[r.value].ID == id
      ensures r.Some? ==> forall j :: 0 <= j < r.value ==> Objectives[j].ID != id
      ensures r.None? <==> forall j :: 0 <= j < |Objectives| ==> Objectives[j].ID != id
    {
      FirstMatch(Objectives, (o: ObjectiveState) => o.ID == id)
    }

    function FindObjectiveByIndex(index: int): (r: Option<nat>)
      reads this
      ensures r.Some? ==> r.value < |Objectives| && Objectives[r.value].Index == index
      ensures r.Some? ==> forall j :: 0 <= j < r.value ==> Objectives[j].Index != index
      ensures r.None? <==> forall j :: 0 <= j < |Objectives| ==> Objectives[j].Index != index
    {
      FirstMatch(Objectives, (o: ObjectiveState) => o.Index == index)
    }

    function FindObjectiveByRegionIDAndIndex(regionID: int, index: int): (r: Option<nat>)
      reads this
      ensures r.Some? ==> r.value < |Objectives| && Objectives[r.value].RegionID == regionID && Objectives[r.value].Index == index
      ensures r.Some? ==> forall j :: 0 <= j < r.value ==> !(Objectives[j].RegionID == regionID && Objectives[j].Index == index)
      ensures r.None? <==> forall j :: 0 <= j < |Objectives| ==> !(Objectives[j].RegionID == regionID && Objectives[j].Index == index)
    {
      FirstMatch(Objectives, (o: ObjectiveState) => o.RegionID == regionID && o.Index == index)
    }

    /** When every record sits at its own position in region `regionID`, the lookup by region and index finds it there. */
    lemma IndexedObjectiveFound(regionID: int, index: int)
      requires forall k :: 0 <= k < |Objectives| ==> Objectives[k].Index == k && Objectives[k].RegionID == regionID
      requires 0 <= index < |Objectives|
      ensures FindObjectiveByRegionIDAndIndex(regionID, index) == Some(index)
    {
      var r := FindObjectiveByRegionIDAndIndex(regionID, index);
      assert Objectives[index].Index == index && Objectives[index].RegionID == regionID;
      assert Objectives[r.value].Index == r.value;
    }

    /**
     * As written, the scan compares each record with the member `ServerID`,
     * not with the argument: it finds this node's own record whatever `id` is.
     */
    function FindServerByID(id: int): (r: Option<nat>)
      reads this
      ensures r.Some? ==> r.value < |Servers| && Servers[r.value].ID == ServerID
      ensures r.Some? ==> forall j :: 0 <= j < r.value ==> Servers[j].ID != ServerID
      ensures r.None? <==> forall j :: 0 <= j < |Servers| ==> Servers[j].ID != ServerID
    {
      var own := ServerID;
      FirstMatch(Servers, (s: ServerState) => s.ID == own)
    }

    /** The lookup the name promises: the first record whose ID is the argument. */
    function FindServerByIDIntended(id: int): (r: Option<nat>)
      reads this
      ensures r.Some? ==> r.value < |Servers| && Servers[r.value].ID == id
      ensures r.Some? ==> forall j :: 0 <= j < r.value ==> Servers[j].ID != id
      ensures r.None? <==> forall j :: 0 <= j < |Servers| ==> Servers[j].ID != id
    {
      FirstMatch(Servers, (s: ServerState) => s.ID == id)
    }

    function FindServerByAreaID(areaID: int): (r: Option<nat>)
      reads this
      ensures r.Some? ==> r.value < |Servers| && areaID in Servers[r.value].AreaIDs
      ensures r.Some? ==> forall j :: 0 <= j < r.value ==> areaID !in Servers[j].AreaIDs
      ensures r.None? <==> forall j :: 0 <= j < |Servers| ==> areaID !in Servers[j].AreaIDs
    {
      FirstMatch(Servers, (s: ServerState) => areaID in s.AreaIDs)
    }

    /**
     * Returns the position of the record `FindServerByID` finds; otherwise
     * appends a default record carrying `id` and returns its position.
     */
    method FindOrInsertServerByID(id: int) returns (i: nat)
      modifies this`Servers
      ensures i < |Servers|
      ensures old(FindServerByID(id)).Some? ==> Servers == old(Servers) && i == old(FindServerByID(id)).value
      ensures old(FindServerByID(id)).None? ==>
        && Servers == old(Servers) + [NewServer(id, Servers[i].Enabled, Servers[i].Active)]
        && i == |old(Servers)|
    {
      var found := FindServerByID(id);
      if found.Some? {
        i := found.value;
      } else {
        var enabled: bool :| true;
        var active: bool :| true;
        Servers := Servers + [NewServer(id, enabled, active)];
        i := |Servers| - 1;
      }
    }

    /** The upsert the name promises, built on `FindServerByIDIntended`. */
    method FindOrInsertServerByIDIntended(id: int) returns (i: nat)
      modifies this`Servers
      ensures i < |Servers| && Servers[i].ID == id
      ensures old(FindServerByIDIntended(id)).Some? ==> Servers == old(Servers) && i == old(FindServerByIDIntended(id)).value
      ensures old(FindServerByIDIntended(id)).None? ==>
        && Servers == old(Servers) + [NewServer(id, Servers[i].Enabled, Servers[i].Active)]
        && i == |old(Servers)|
    {
      var found := FindServerByIDIntended(id);
      if found.Some? {
        i := found.value;
      } else {
        var enabled: bool :| true;
        var active: bool :| true;
        Servers := Servers + [NewServer(id, enabled, active)];
        i := |Servers| - 1;
      }
    }

    function GetFactionColorSafe(i: int): (c: Color)
      reads this
      ensures 0 <= i < |Factions| ==> c == Factions[i].Color
      ensures !(0 <= i < |Factions|) ==> c == Gray
    {
      if 0 <= i < |Factions| then Factions[i].Color else Gray
    }

    // ---- the capture rule ----

    /** An area index counts as active when it is unassigned or listed in `ActiveAreaIndexes`. */
    predicate IsActiveArea(areaIndex: int)
      reads this
    {
      areaIndex == Unassigned || areaIndex in ActiveAreaIndexes
    }

    /** Active on this node and held by faction `f`: what the counting loop counts. */
    predicate IsActiveAndHeldBy(o: ObjectiveState, f: int)
      reads this
    {
      IsActiveArea(o.AreaIndex) && o.FactionIndex == f
    }

    /** How many of `objs` are active and held by `f`. */
    function CountActiveHeldBy(objs: seq<ObjectiveState>, f: int): (n: nat)
      reads this
      ensures n <= |objs|
      decreases |objs|
    {
      if |objs| == 0 then 0
      else CountActiveHeldBy(objs[..|objs| - 1], f) + (if IsActiveAndHeldBy(objs[|objs| - 1], f) then 1 else 0)
    }

    /** The positions of `objs` whose record is active and held by `f`. */
    function HeldPositions(objs: seq<ObjectiveState>, f: int): set<int>
      reads this
    {
      set i | 0 <= i < |objs| && IsActiveAndHeldBy(objs[i], f)
    }

    /** The count is exactly the number of records that are active and held by `f`. */
    lemma {:induction false} CountIsNumberHeld(objs: seq<ObjectiveState>, f: int)
      ensures CountActiveHeldBy(objs, f) == |HeldPositions(objs, f)|
      decreases |objs|
    {
      if |objs| > 0 {
        CountIsNumberHeld(objs[..|objs| - 1], f);
        HeldPositionsSnoc(objs, f);
      }
    }

    /** The held positions of a sequence are those of its prefix, plus the last position when that record is held. */
    lemma HeldPositionsSnoc(objs: seq<ObjectiveState>, f: int)
      requires |objs| > 0
      ensures var last := |objs| - 1;
        HeldPositions(objs, f) == HeldPositions(objs[..last], f) + (if IsActiveAndHeldBy(objs[last], f) then {last} else {})
      ensures |objs| - 1 !in HeldPositions(objs[..|objs| - 1], f)
    {
      var last := |objs| - 1;
      var init := objs[..last];
      forall i ensures i in HeldPositions(objs, f) <==> i in HeldPositions(init, f) + (if IsActiveAndHeldBy(objs[last], f) then {last} else {}) {
        if 0 <= i < last {
          assert objs[i] == init[i];
        }
      }
    }

    /** One record that is active and held by `f` makes the count positive. */
    lemma CountPositiveWhenHeld(objs: seq<ObjectiveState>, f: int, i: int)
      requires 0 <= i < |objs| && IsActiveAndHeldBy(objs[i], f)
      ensures CountActiveHeldBy(objs, f) > 0
    {
      CountIsNumberHeld(objs, f);
      assert i in HeldPositions(objs, f);
    }

    /** The count is zero exactly when no record is active and held by `f`. */
    lemma CountZeroIff(objs: seq<ObjectiveState>, f: int)
      ensures CountActiveHeldBy(objs, f) == 0 <==> forall i :: 0 <= i < |objs| ==> !IsActiveAndHeldBy(objs[i], f)
    {
      CountIsNumberHeld(objs, f);
      forall i | 0 <= i < |objs| && IsActiveAndHeldBy(objs[i], f) ensures CountActiveHeldBy(objs, f) > 0 {
        CountPositiveWhenHeld(objs, f, i);
      }
      if CountActiveHeldBy(objs, f) != 0 {
        var i :| i in HeldPositions(objs, f);
      }
    }

    /** The counting loop of `GetNumActiveObjectivesByFactionIndex`. */
    method GetNumActiveObjectivesByFactionIndex(f: int) returns (count: int)
      ensures count == CountActiveHeldBy(Objectives, f)
      ensures 0 <= count <= |Objectives|
    {
      count := 0;
      var i := 0;
      while i < |Objectives|
        invariant 0 <= i <= |Objectives|
        invariant count == CountActiveHeldBy(Objectives[..i], f)
      {
        assert Objectives[..i + 1][..i] == Objectives[..i];
        if (Objectives[i].AreaIndex == Unassigned || Objectives[i].AreaIndex in ActiveAreaIndexes) && Objectives[i].FactionIndex == f {
          count := count + 1;
        }
        i := i + 1;
      }
      assert Objectives[..|Objectives|] == Objectives;
    }

    /** The faction index of the objective a linked index resolves to; None for a dangling link. */
    function LinkedFaction(linkIndex: int): (r: Option<int>)
      reads this
    {
      match FindObjectiveByIndex(linkIndex)
      case None => None
      case Some(i) => Some(Objectives[i].FactionIndex)
    }

    /** Whether some link in `links` resolves to an objective whose faction satisfies `p`. */
    function AnyLinkHeld(links: seq<int>, p: int -> bool): (r: bool)
      reads this
      ensures r <==> exists j :: 0 <= j < |links| && LinkedFaction(links[j]).Some? && p(LinkedFaction(links[j]).value)
      decreases |links|
    {
      if |links| == 0 then false
      else
        var g := LinkedFaction(links[0]);
        (g.Some? && p(g.value)) || AnyLinkHeld(links[1..], p)
    }

    /** `IsObjectiveLinkedToFriendlyObjective(const FAdhocObjectiveState*, int32)`. */
    function IsStateLinkedToFriendlyObjective(o: ObjectiveState, f: int): (r: bool)
      reads this
      ensures r <==> exists j :: 0 <= j < |o.LinkedObjectiveIndexes| && LinkedFaction(o.LinkedObjectiveIndexes[j]) == Some(f)
    {
      AnyLinkHeld(o.LinkedObjectiveIndexes, (g: int) => g == f)
    }

    /** `IsObjectiveLinkedToEnemyObjective(const FAdhocObjectiveState*, int32)`; an unclaimed link counts as enemy. */
    function IsStateLinkedToEnemyObjective(o: ObjectiveState, f: int): (r: bool)
      reads this
      ensures r <==> exists j :: 0 <= j < |o.LinkedObjectiveIndexes| &&
                                LinkedFaction(o.LinkedObjectiveIndexes[j]).Some? && LinkedFaction(o.LinkedObjectiveIndexes[j]).value != f
    {
      AnyLinkHeld(o.LinkedObjectiveIndexes, (g: int) => g != f)
    }

    function IsObjectiveLinkedToFriendlyObjective(objectiveIndex: int, f: int): (r: bool)
      reads this
      ensures r <==> (FindObjectiveByIndex(objectiveIndex).Some? &&
        exists j :: 0 <= j < |Objectives[FindObjectiveByIndex(objectiveIndex).value].LinkedObjectiveIndexes| &&
          LinkedFaction(Objectives[FindObjectiveByIndex(objectiveIndex).value].LinkedObjectiveIndexes[j]) == Some(f))
    {
      match FindObjectiveByIndex(objectiveIndex)
      case None => false
      case Some(i) => IsStateLinkedToFriendlyObjective(Objectives[i], f)
    }

    function IsObjectiveLinkedToEnemyObjective(objectiveIndex: int, f: int): (r: bool)
      reads this
      ensures r <==> (FindObjectiveByIndex(objectiveIndex).Some? &&
        exists j :: 0 <= j < |Objectives[FindObjectiveByIndex(objectiveIndex).value].LinkedObjectiveIndexes| &&
          LinkedFaction(Objectives[FindObjectiveByIndex(objectiveIndex).value].LinkedObjectiveIndexes[j]).Some? &&
          LinkedFaction(Objectives[FindObjectiveByIndex(objectiveIndex).value].LinkedObjectiveIndexes[j]).value != f)
    {
      match FindObjectiveByIndex(objectiveIndex)
      case None => false
      case Some(i) => IsStateLinkedToEnemyObjective(Objectives[i], f)
    }

    /**
     * The front-line capture predicate: found, active, not already held by
     * `f`, and either unclaimed, linked to one of `f`'s objectives, `f` holds
     * no active objective, or the objective has no links.
     */
    function IsObjectiveActiveAndTakeableByFaction(objectiveIndex: int, f: int): (r: bool)
      reads this
      ensures r <==> exists i :: 0 <= i < |Objectives| && Objectives[i].Index == objectiveIndex
                                 && (forall j :: 0 <= j < i ==> Objectives[j].Index != objectiveIndex)
                                 && IsActiveArea(Objectives[i].AreaIndex)
                                 && Objectives[i].FactionIndex != f
                                 && (|| Objectives[i].FactionIndex == Unassigned
                                     || (exists k :: 0 <= k < |Objectives[i].LinkedObjectiveIndexes| && LinkedFaction(Objectives[i].LinkedObjectiveIndexes[k]) == Some(f))
                                     || CountActiveHeldBy(Objectives, f) == 0
                                     || Objectives[i].LinkedObjectiveIndexes == [])
    {
      match FindObjectiveByIndex(objectiveIndex)
      case None => false
      case Some(i) =>
        var o := Objectives[i];
        && IsActiveArea(o.AreaIndex)
        && o.FactionIndex != f
        && (|| o.FactionIndex == Unassigned
            || IsStateLinkedToFriendlyObjective(o, f)
            || CountActiveHeldBy(Objectives, f) <= 0
            || |o.LinkedObjectiveIndexes| <= 0)
    }

    // ---- one lemma per clause of the capture rule ----

    lemma NotTakeableWhenMissing(objectiveIndex: int, f: int)
      requires FindObjectiveByIndex(objectiveIndex).None?
      ensures !IsObjectiveActiveAndTakeableByFaction(objectiveIndex, f)
    {
    }

    /** Objectives outside the active areas are never takeable. */
    lemma NotTakeableOutsideActiveAreas(objectiveIndex: int, f: int)
      requires FindObjectiveByIndex(objectiveIndex).Some?
      requires !IsActiveArea(Objectives[FindObjectiveByIndex(objectiveIndex).value].AreaIndex)
      ensures !IsObjectiveActiveAndTakeableByFaction(objectiveIndex, f)
    {
    }

    lemma NotTakeableWhenAlreadyHeld(objectiveIndex: int, f: int)
      requires FindObjectiveByIndex(objectiveIndex).Some?
      requires Objectives[FindObjectiveByIndex(objectiveIndex).value].FactionIndex == f
      ensures !IsObjectiveActiveAndTakeableByFaction(objectiveIndex, f)
    {
    }

    lemma TakeableWhenUnclaimed(objectiveIndex: int, f: int)
      requires f != Unassigned
      requires FindObjectiveByIndex(objectiveIndex).Some?
      requires IsActiveArea(Objectives[FindObjectiveByIndex(objectiveIndex).value].AreaIndex)
      requires Objectives[FindObjectiveByIndex(objectiveIndex).value].FactionIndex == Unassigned
      ensures IsObjectiveActiveAndTakeableByFaction(objectiveIndex, f)
    {
    }

    lemma TakeableWhenUnlinked(objectiveIndex: int, f: int)
      requires FindObjectiveByIndex(objectiveIndex).Some?
      requires IsActiveArea(Objectives[FindObjectiveByIndex(objectiveIndex).value].AreaIndex)
      requires Objectives[FindObjectiveByIndex(objectiveIndex).value].FactionIndex != f
      requires Objectives[FindObjectiveByIndex(objectiveIndex).value].LinkedObjectiveIndexes == []
      ensures IsObjectiveActiveAndTakeableByFaction(objectiveIndex, f)
    {
    }

    /** A faction that holds no active objective may take any active objective it does not hold. */
    lemma TakeableWithoutFoothold(objectiveIndex: int, f: int)
      requires FindObjectiveByIndex(objectiveIndex).Some?
      requires IsActiveArea(Objectives[FindObjectiveByIndex(objectiveIndex).value].AreaIndex)
      requires Objectives[FindObjectiveByIndex(objectiveIndex).value].FactionIndex != f
      requires forall i :: 0 <= i < |Objectives| ==> !IsActiveAndHeldBy(Objectives[i], f)
      ensures IsObjectiveActiveAndTakeableByFaction(objectiveIndex, f)
    {
      CountZeroIff(Objectives, f);
    }

    /** An objective linked to one `f` already holds may be taken by `f`. */
    lemma TakeableWhenLinkedToFriendly(objectiveIndex: int, f: int, j: int)
      requires FindObjectiveByIndex(objectiveIndex).Some?
      requires IsActiveArea(Objectives[FindObjectiveByIndex(objectiveIndex).value].AreaIndex)
      requires Objectives[FindObjectiveByIndex(objectiveIndex).value].FactionIndex != f
      requires 0 <= j < |Objectives[FindObjectiveByIndex(objectiveIndex).value].LinkedObjectiveIndexes|
      requires LinkedFaction(Objectives[FindObjectiveByIndex(objectiveIndex).value].LinkedObjectiveIndexes[j]) == Some(f)
      ensures IsObjectiveActiveAndTakeableByFaction(objectiveIndex, f)
    {
      var o := Objectives[FindObjectiveByIndex(objectiveIndex).value];
      assert IsStateLinkedToFriendlyObjective(o, f);
    }

    /**
     * The front line: an objective held by another faction, with links, none
     * of which resolves to one of `f`'s objectives, while `f` holds some
     * active objective `k`, cannot be taken by `f`.
     */
    lemma NotTakeableBehindFrontLine(objectiveIndex: int, f: int, k: int)
      requires FindObjectiveByIndex(objectiveIndex).Some?
      requires Objectives[FindObjectiveByIndex(objectiveIndex).value].FactionIndex != Unassigned
      requires |Objectives[FindObjectiveByIndex(objectiveIndex).value].LinkedObjectiveIndexes| > 0
      requires forall j :: 0 <= j < |Objectives[FindObjectiveByIndex(objectiveIndex).value].LinkedObjectiveIndexes| ==>
        LinkedFaction(Objectives[FindObjectiveByIndex(objectiveIndex).value].LinkedObjectiveIndexes[j]) != Some(f)
      requires 0 <= k < |Objectives| && IsActiveAndHeldBy(Objectives[k], f)
      ensures !IsObjectiveActiveAndTakeableByFaction(objectiveIndex, f)
    {
      CountZeroIff(Objectives, f);
    }

    /** A link whose index resolves to no objective changes neither link check. */
    lemma {:induction false} DanglingLinkIgnored(links: seq<int>, k: int, p: int -> bool)
      requires FindObjectiveByIndex(k).None?
      ensures AnyLinkHeld(links + [k], p) == AnyLinkHeld(links, p)
    {
      var ext := links + [k];
      if AnyLinkHeld(ext, p) {
        var j :| 0 <= j < |ext| && LinkedFaction(ext[j]).Some? && p(LinkedFaction(ext[j]).value);
        assert j < |links| && links[j] == ext[j];
      }
      if AnyLinkHeld(links, p) {
        var j :| 0 <= j < |links| && LinkedFaction(links[j]).Some? && p(LinkedFaction(links[j]).value);
        assert ext[j] == links[j];
      }
    }

    /** A link to an unclaimed objective makes the objective linked to an enemy of every real faction. */
    lemma UnclaimedLinkIsEnemy(o: ObjectiveState, f: int, j: int)
      requires f != Unassigned
      requires 0 <= j < |o.LinkedObjectiveIndexes|
      requires LinkedFaction(o.LinkedObjectiveIndexes[j]) == Some(Unassigned)
      ensures IsStateLinkedToEnemyObjective(o, f)
    {
    }

    /** A fresh record placed in an active cache is takeable by every real faction. */
    lemma FreshObjectiveTakeable(objectiveIndex: int, f: int)
      requires f != Unassigned
      requires FindObjectiveByIndex(objectiveIndex).Some?
      requires Objectives[FindObjectiveByIndex(objectiveIndex).value] == NewObjective().(Index := objectiveIndex)
      ensures IsObjectiveActiveAndTakeableByFaction(objectiveIndex, f)
    {
    }

    /** `FindServerByID` ignores its argument. */
    lemma FindServerByIDIgnoresArgument(a: int, b: int)
      ensures FindServerByID(a) == FindServerByID(b)
    {
    }
  }
}
