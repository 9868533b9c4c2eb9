/**
 * The component a pawn carries: an identity, the name shown for whoever
 * controls it, and the faction it fights for. Setters notify listeners only
 * when the value changes; replication callbacks always notify.
 */
module Pawn {
  /** An `FGuid`: four 32-bit words, all zero for the default (invalid) GUID. */
  datatype Guid = Guid(A: int, B: int, C: int, D: int)

  const ZeroGuid: Guid := Guid(0, 0, 0, 0)

  class PawnComponent {
    var UUID: Guid
    var FriendlyName: string
    var Description: string
    /** `int64`, -1 when the controlling user is unknown. */
    var UserID: int
    var Human: bool
    /** `int32`, -1 for no faction. */
    var FactionIndex: int
    ghost var FriendlyNameBroadcasts: nat
    ghost var FactionIndexBroadcasts: nat

    /** A freshly created component: zero GUID, empty strings, no user and no faction (object memory starts zeroed). */
    constructor ()
      ensures UUID == ZeroGuid
      ensures FriendlyName == "" && Description == ""
      ensures UserID == -1 && !Human && FactionIndex == -1
      ensures FriendlyNameBroadcasts == 0 && FactionIndexBroadcasts == 0
    {
      UUID := ZeroGuid;
      FriendlyName := "";
      Description := "";
      UserID := -1;
      Human := false;
      FactionIndex := -1;
      FriendlyNameBroadcasts := 0;
      FactionIndexBroadcasts := 0;
    }

    /**
     * Only the authoritative copy (the server's) draws a new GUID; `newGuid`
     * stands for the value the random generator returns.
     */
    method InitializeComponent(hasAuthority: bool, newGuid: Guid)
      modifies this`UUID
      ensures UUID == if hasAuthority then newGuid else old(UUID)
    {
      if hasAuthority {
        UUID := newGuid;
      }
    }

    method SetFriendlyName(name: string)
      modifies this`FriendlyName, this`FriendlyNameBroadcasts
      ensures FriendlyName == name
      ensures FriendlyNameBroadcasts == old(FriendlyNameBroadcasts) + (if old(FriendlyName) != name then 1 else 0)
    {
      var changed := FriendlyName != name;
      FriendlyName := name;
      if changed {
        FriendlyNameBroadcasts := FriendlyNameBroadcasts + 1;
      }
    }

    method SetFactionIndex(index: int)
      modifies this`FactionIndex, this`FactionIndexBroadcasts
      ensures FactionIndex == index
      ensures FactionIndexBroadcasts == old(FactionIndexBroadcasts) + (if old(FactionIndex) != index then 1 else 0)
    {
      var changed := FactionIndex != index;
      FactionIndex := index;
      if changed {
        FactionIndexBroadcasts := FactionIndexBroadcasts + 1;
      }
    }

    method OnRepFriendlyName()
      modifies this`FriendlyNameBroadcasts
      ensures FriendlyNameBroadcasts == old(FriendlyNameBroadcasts) + 1
    {
      FriendlyNameBroadcasts := FriendlyNameBroadcasts + 1;
    }

    method OnRepFactionIndex()
      modifies this`FactionIndexBroadcasts
      ensures FactionIndexBroadcasts == old(FactionIndexBroadcasts) + 1
    {
      FactionIndexBroadcasts := FactionIndexBroadcasts + 1;
    }
  }
}
