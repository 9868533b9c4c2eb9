/**
 * The component an objective actor carries: its index in the world-state
 * cache, the faction holding it, the area volume it lies in, and its links to
 * neighbouring objectives, which the editor keeps symmetric.
 *
 * An objective component stands for its owning actor, so the set of linked
 * actors is a set of components here, kept as a duplicate-free sequence.
 */
module ObjectiveComp {
  import opened Wrappers
  import opened Lists
  import Area

  /** The tag every objective actor carries once initialised. */
  const ObjectiveTag: string := "Adhoc_Objective"

  /**
   * One actor met while iterating the world during initialisation: its area
   * component, if it has one, and whether its bounding box intersects the
   * objective's (geometry is not modelled, so the intersection test is given).
   */
  datatype AreaCandidate = AreaCandidate(Area: Area.AreaComponent?, Intersects: bool)

  /** The kinds of editor change the link bookkeeping distinguishes. */
  datatype PropertyChangeType = ValueSet | ArrayRemove | OtherChange

  class ObjectiveComponent {
    var ObjectiveIndex: int
    var FriendlyName: string
    var InitialFactionIndex: int
    var FactionIndex: int
    var LinkedObjectives: seq<ObjectiveComponent>
    var AdhocArea: Area.AreaComponent?
    /** The owning actor's tags. */
    var OwnerTags: seq<string>
    /** How many times the faction-index-changed delegate has been broadcast. */
    ghost var FactionIndexBroadcasts: nat

    /**
     * `FriendlyName`, `InitialFactionIndex` and the links are editor
     * properties (defaults "Objective", -1 and none); the rest start unassigned.
     */
    constructor (friendlyName: string, initialFactionIndex: int, links: seq<ObjectiveComponent>, tags: seq<string>)
      ensures ObjectiveIndex == -1 && FactionIndex == -1
      ensures FriendlyName == friendlyName && InitialFactionIndex == initialFactionIndex
      ensures LinkedObjectives == links && OwnerTags == tags
      ensures AdhocArea == null
      ensures FactionIndexBroadcasts == 0
    {
      ObjectiveIndex := -1;
      FriendlyName := friendlyName;
      InitialFactionIndex := initialFactionIndex;
      FactionIndex := -1;
      LinkedObjectives := links;
      AdhocArea := null;
      OwnerTags := tags;
      FactionIndexBroadcasts := 0;
    }

    /** The first candidate that is an area and whose bounds meet the objective's. */
    static function ContainingArea(candidates: seq<AreaCandidate>): (r: Option<nat>)
      ensures r.Some? ==> r.value < |candidates| && candidates[r.value].Area != null && candidates[r.value].Intersects
      ensures r.Some? ==> forall j :: 0 <= j < r.value ==> candidates[j].Area == null || !candidates[j].Intersects
      ensures r.None? <==> forall j :: 0 <= j < |candidates| ==> candidates[j].Area == null || !candidates[j].Intersects
    {
      FirstMatch(candidates, (c: AreaCandidate) => c.Area != null && c.Intersects)
    }

    /**
     * Tags the owner as an objective if it is not already, then records the
     * first intersecting area volume met. When none intersects, the area
     * reference is left as it was.
     */
    method InitializeComponent(candidates: seq<AreaCandidate>)
      modifies this`OwnerTags, this`AdhocArea
      ensures OwnerTags == if ObjectiveTag in old(OwnerTags) then old(OwnerTags) else old(OwnerTags) + [ObjectiveTag]
      ensures ObjectiveTag in OwnerTags
      ensures AdhocArea == match ContainingArea(candidates)
                           case Some(k) => candidates[k].Area
                           case None => old(AdhocArea)
    {
      if ObjectiveTag !in OwnerTags {
        OwnerTags := OwnerTags + [ObjectiveTag];
      }
      var i := 0;
      while i < |candidates|
        invariant 0 <= i <= |candidates|
        invariant forall j :: 0 <= j < i ==> candidates[j].Area == null || !candidates[j].Intersects
        invariant AdhocArea == old(AdhocArea)
      {
        var candidate := candidates[i];
        if candidate.Area == null {
          i := i + 1;
          continue;
        }
        if candidate.Intersects {
          AdhocArea := candidate.Area;
          assert FirstMatch(candidates, (c: AreaCandidate) => c.Area != null && c.Intersects) == Some(i);
          return;
        }
        i := i + 1;
      }
    }

    /** The containing area's index, or -1 when the objective lies in no area. */
    function AreaIndexSafe(): (r: int)
      reads this, AdhocArea
      ensures AdhocArea == null ==> r == -1
      ensures AdhocArea != null ==> r == AdhocArea.AreaIndex
    {
      if AdhocArea == null then -1 else AdhocArea.AreaIndex
    }

    method SetObjectiveIndex(index: int)
      modifies this`ObjectiveIndex
      ensures ObjectiveIndex == index
    {
      ObjectiveIndex := index;
    }

    /** Stores the new holder and notifies listeners only when it differs from the old one. */
    method SetFactionIndex(index: int)
      modifies this`FactionIndex, this`FactionIndexBroadcasts
      ensures FactionIndex == index
      ensures FactionIndexBroadcasts == old(FactionIndexBroadcasts) + (if old(FactionIndex) != index then 1 else 0)
    {
      var changed := FactionIndex != index;
      FactionIndex := index;
      if changed {
        FactionIndexBroadcasts := FactionIndexBroadcasts + 1;
      }
    }

    /** A replicated holder arriving on a client always notifies listeners. */
    method OnRepFactionIndex()
      modifies this`FactionIndexBroadcasts
      ensures FactionIndexBroadcasts == old(FactionIndexBroadcasts) + 1
    {
      FactionIndexBroadcasts := FactionIndexBroadcasts + 1;
    }

    /** What the removal sweep leaves in another objective's links. */
    function WithoutBackLink(other: ObjectiveComponent, links: seq<ObjectiveComponent>): (r: seq<ObjectiveComponent>)
      reads this
      ensures this in links && other !in LinkedObjectives ==> this !in r
      ensures !(this in links && other !in LinkedObjectives) ==> r == links
      ensures forall i :: 0 <= i < |links| ==> links[i] != this ==> links[i] in r
      ensures forall i :: 0 <= i < |r| ==> r[i] in links
    {
      if this in links && other !in LinkedObjectives then Remove(links, this) else links
    }

    /**
     * Editor hook keeping links symmetric. After the link set is edited by
     * setting a value, every linked objective links back; after an element is
     * removed, every objective in the world that still links here but is no
     * longer linked from here drops its back-link. This objective's own links
     * never change, and any other property change does nothing.
     */
    method PostEditChangeProperty(propertyName: string, changeType: PropertyChangeType, world: seq<ObjectiveComponent>)
      modifies LinkedObjectives`LinkedObjectives, world`LinkedObjectives
      ensures LinkedObjectives == old(LinkedObjectives)
      ensures propertyName != "LinkedObjectives" || changeType == OtherChange ==>
        forall o :: o in old(LinkedObjectives) || o in world ==> o.LinkedObjectives == old(o.LinkedObjectives)
      ensures propertyName == "LinkedObjectives" && changeType == ValueSet ==>
        (forall o :: o in old(LinkedObjectives) ==> o.LinkedObjectives == AddUnique(old(o.LinkedObjectives), this)) &&
        (forall o :: o in world && o !in old(LinkedObjectives) ==> o.LinkedObjectives == old(o.LinkedObjectives))
      ensures propertyName == "LinkedObjectives" && changeType == ArrayRemove ==>
        (forall o :: o in world ==> o.LinkedObjectives == WithoutBackLink(o, old(o.LinkedObjectives))) &&
        (forall o :: o in old(LinkedObjectives) && o !in world ==> o.LinkedObjectives == old(o.LinkedObjectives))
      /** The invariant each edit restores, seen from this objective. */
      ensures propertyName == "LinkedObjectives" && changeType == ValueSet ==>
        forall o :: o in LinkedObjectives ==> this in o.LinkedObjectives
      ensures propertyName == "LinkedObjectives" && changeType == ArrayRemove ==>
        forall o :: o in world && this in o.LinkedObjectives ==> o in LinkedObjectives
    {
      if propertyName != "LinkedObjectives" {
        return;
      }
      if changeType == ValueSet {
        AddBackLinks(world);
      } else if changeType == ArrayRemove {
        DropBackLinks(world);
      }
    }

    /** The value-set branch: every linked objective that does not yet link here gets a back-link. */
    method AddBackLinks(world: seq<ObjectiveComponent>)
      modifies LinkedObjectives`LinkedObjectives
      ensures LinkedObjectives == old(LinkedObjectives)
      ensures forall o :: o in old(LinkedObjectives) ==> o.LinkedObjectives == AddUnique(old(o.LinkedObjectives), this)
      ensures forall o :: o in world && o !in old(LinkedObjectives) ==> o.LinkedObjectives == old(o.LinkedObjectives)
    {
      var links := LinkedObjectives;
      var i := 0;
      while i < |links|
        invariant 0 <= i <= |links|
        invariant LinkedObjectives == links
        invariant forall o :: o in links[..i] ==> o.LinkedObjectives == AddUnique(old(o.LinkedObjectives), this)
        invariant forall o :: (o in links || o in world) && o !in links[..i] ==> o.LinkedObjectives == old(o.LinkedObjectives)
      {
        var linked := links[i];
        if this !in linked.LinkedObjectives {
          linked.LinkedObjectives := linked.LinkedObjectives + [this];
        }
        assert links[..i + 1] == links[..i] + [linked];
        i := i + 1;
      }
      assert links[..|links|] == links;
    }

    /** The array-remove branch: objectives no longer linked from here drop their back-links. */
    method DropBackLinks(world: seq<ObjectiveComponent>)
      modifies world`LinkedObjectives
      ensures LinkedObjectives == old(LinkedObjectives)
      ensures forall o :: o in world ==> o.LinkedObjectives == WithoutBackLink(o, old(o.LinkedObjectives))
      ensures forall o :: o in old(LinkedObjectives) && o !in world ==> o.LinkedObjectives == old(o.LinkedObjectives)
    {
      var i := 0;
      while i < |world|
        invariant 0 <= i <= |world|
        invariant LinkedObjectives == old(LinkedObjectives)
        invariant forall o :: o in world[..i] ==> o.LinkedObjectives == WithoutBackLink(o, old(o.LinkedObjectives))
        invariant forall o :: (o in LinkedObjectives || o in world) && o !in world[..i] ==> o.LinkedObjectives == old(o.LinkedObjectives)
      {
        var other := world[i];
        if this in other.LinkedObjectives && other !in LinkedObjectives {
          other.LinkedObjectives := Remove(other.LinkedObjectives, this);
        }
        assert world[..i + 1] == world[..i] + [other];
        i := i + 1;
      }
      assert world[..|world|] == world;
    }
  }

  /** The first component, in world order, whose assigned objective index is `index`. */
  function FindByObjectiveIndex(cs: seq<ObjectiveComponent>, index: int): (r: Option<nat>)
    reads cs
    ensures r.Some? ==> r.value < |cs| && cs[r.value].ObjectiveIndex == index
    ensures r.Some? ==> forall j :: 0 <= j < r.value ==> cs[j].ObjectiveIndex != index
    ensures r.None? <==> forall j :: 0 <= j < |cs| ==> cs[j].ObjectiveIndex != index
    decreases |cs|
  {
    if |cs| == 0 then None
    else if cs[0].ObjectiveIndex == index then Some(0)
    else
      match FindByObjectiveIndex(cs[1..], index)
      case None => None
      case Some(k) => Some(k + 1)
  }
}
