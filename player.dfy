/**
 * The session side of a controller: the component on every controller (its
 * display name and faction, which it hands to each new pawn), the session
 * fields a human player's controller adds, and the player-state component.
 *
 * The player controller component and the AI controller component both
 * extend the controller component; here they are one class whose `IsPlayer`
 * says which one it is.
 */
module Player {
  import opened Wrappers
  import opened Numeric
  import opened Records
  import Pawn

  /** An `FTransform` built from a rotator (pitch, yaw, roll) and a location. */
  datatype Transform = Transform(Pitch: real, Yaw: real, Roll: real, Location: Vector)

  class ControllerComponent {
    /** True for a human player's controller; false for a bot's. */
    const IsPlayer: bool
    var FriendlyName: string
    /** `int32`, -1 for no faction. */
    var FactionIndex: int
    /** `int64`, -1 while the user is unknown. */
    var UserID: int
    var Token: string
    /** When set, the player spawns here at once, having travelled from another server. */
    var ImmediateSpawnTransform: Option<Transform>
    ghost var FriendlyNameBroadcasts: nat
    ghost var FactionIndexBroadcasts: nat

    /** A bot's controller is named "Bot" until the manager says otherwise; a player's starts unnamed. */
    constructor (isPlayer: bool)
      ensures IsPlayer == isPlayer
      ensures FriendlyName == if isPlayer then "" else "Bot"
      ensures FactionIndex == -1 && UserID == -1
      ensures Token == "" && ImmediateSpawnTransform.None?
      ensures FriendlyNameBroadcasts == 0 && FactionIndexBroadcasts == 0
    {
      IsPlayer := isPlayer;
      FriendlyName := if isPlayer then "" else "Bot";
      FactionIndex := -1;
      UserID := -1;
      Token := "";
      ImmediateSpawnTransform := None;
      FriendlyNameBroadcasts := 0;
      FactionIndexBroadcasts := 0;
    }

    method SetFriendlyName(name: string)
      modifies this`FriendlyName, this`FriendlyNameBroadcasts
      ensures FriendlyName == name
      ensures FriendlyNameBroadcasts == old(FriendlyNameBroadcasts) + (if old(FriendlyName) != name then 1 else 0)
    {
      var changed := FriendlyName != name;
      FriendlyName := name;
      if changed {
        FriendlyNameBroadcasts := FriendlyNameBroadcasts + 1;
      }
    }

    /**
     * Takes an `int64` and stores it in the `int32` field. The change test
     * compares the widened old value with the full argument, before narrowing.
     */
    method SetFactionIndex(index: int)
      modifies this`FactionIndex, this`FactionIndexBroadcasts
      ensures FactionIndex == I32(index)
      ensures FactionIndexBroadcasts == old(FactionIndexBroadcasts) + (if old(FactionIndex) != index then 1 else 0)
    {
      var changed := FactionIndex != index;
      FactionIndex := I32(index);
      if changed {
        FactionIndexBroadcasts := FactionIndexBroadcasts + 1;
      }
    }

    method OnRepFriendlyName()
      modifies this`FriendlyNameBroadcasts
      ensures FriendlyNameBroadcasts == old(FriendlyNameBroadcasts) + 1
    {
      FriendlyNameBroadcasts := FriendlyNameBroadcasts + 1;
    }

    method OnRepFactionIndex()
      modifies this`FactionIndexBroadcasts
      ensures FactionIndexBroadcasts == old(FactionIndexBroadcasts) + 1
    {
      FactionIndexBroadcasts := FactionIndexBroadcasts + 1;
    }

    /**
     * On the server, a newly possessed pawn inherits the controller's name
     * if it has none and the controller has one, and the controller's
     * faction if it has none. A null pawn, or a controller without
     * authority, changes nothing.
     */
    method OnNewPawn(pawn: Pawn.PawnComponent?, hasAuthority: bool)
      modifies pawn
      ensures pawn != null && hasAuthority ==>
        pawn.FriendlyName == (if old(pawn.FriendlyName) == "" && FriendlyName != "" then FriendlyName else old(pawn.FriendlyName))
      ensures pawn != null && hasAuthority ==>
        pawn.FactionIndex == (if old(pawn.FactionIndex) == -1 then FactionIndex else old(pawn.FactionIndex))
      ensures pawn != null && hasAuthority ==>
        pawn.FriendlyNameBroadcasts == old(pawn.FriendlyNameBroadcasts) + (if old(pawn.FriendlyName) == "" && FriendlyName != "" then 1 else 0)
      ensures pawn != null && hasAuthority ==>
        pawn.FactionIndexBroadcasts == old(pawn.FactionIndexBroadcasts) + (if old(pawn.FactionIndex) == -1 && FactionIndex != -1 then 1 else 0)
      ensures pawn != null && !hasAuthority ==>
        pawn.FriendlyName == old(pawn.FriendlyName) && pawn.FactionIndex == old(pawn.FactionIndex) &&
        pawn.FriendlyNameBroadcasts == old(pawn.FriendlyNameBroadcasts) &&
        pawn.FactionIndexBroadcasts == old(pawn.FactionIndexBroadcasts)
      ensures pawn != null ==>
        pawn.UUID == old(pawn.UUID) && pawn.Description == old(pawn.Description) &&
        pawn.UserID == old(pawn.UserID) && pawn.Human == old(pawn.Human)
    {
      if pawn != null && hasAuthority {
        if pawn.FriendlyName == "" {
          if FriendlyName != "" {
            pawn.SetFriendlyName(FriendlyName);
          }
        }
        if pawn.FactionIndex == -1 {
          pawn.SetFactionIndex(FactionIndex);
        }
      }
    }

    method SetUserID(id: int)
      modifies this`UserID
      ensures UserID == id
    {
      UserID := id;
    }

    method SetToken(token: string)
      modifies this`Token
      ensures Token == token
    {
      Token := token;
    }

    method SetImmediateSpawnTransform(t: Option<Transform>)
      modifies this`ImmediateSpawnTransform
      ensures ImmediateSpawnTransform == t
    {
      ImmediateSpawnTransform := t;
    }

    method ClearImmediateSpawnTransform()
      modifies this`ImmediateSpawnTransform
      ensures ImmediateSpawnTransform.None?
    {
      ImmediateSpawnTransform := None;
    }
  }

  /** The component on a player state: the user and faction as replicated to every client. */
  class PlayerStateComponent {
    /** `int32`, -1 for no faction. */
    var FactionIndex: int
    /** `int32`, -1 while the user is unknown. */
    var UserID: int
    /** The name held by the owning player state. */
    var PlayerName: string

    constructor ()
      ensures FactionIndex == -1 && UserID == -1 && PlayerName == ""
    {
      FactionIndex := -1;
      UserID := -1;
      PlayerName := "";
    }

    method SetFactionIndex(index: int)
      modifies this`FactionIndex
      ensures FactionIndex == I32(index)
    {
      FactionIndex := I32(index);
    }

    /** The parameter is `int32`: a wider user ID is narrowed on the way in. */
    method SetUserID(id: int)
      modifies this`UserID
      ensures UserID == I32(id)
    {
      UserID := I32(id);
    }

    method SetPlayerName(name: string)
      modifies this`PlayerName
      ensures PlayerName == name
    {
      PlayerName := name;
    }
  }
}
