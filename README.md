# AdhocPlugin world-state and game-mode core, in Dafny

AdhocPlugin is an Unreal Engine plugin. It runs a game server as one node of a
larger, partitioned world, which a separate manager process coordinates. This
project models the plugin's server-side core and proves properties of the model:

- **The world-state cache** (`GameState.GameStateComponent`) holds this node's:
  - server and region IDs;
  - active area indexes;
  - faction, area, objective and server records.

  It provides:
  - the collection setters;
  - the first-match lookups and the upsert of a server record;
  - the faction colour lookup;
  - the front-line capture rule: which faction may take which objective.
- **The game-mode component, newer revision** (`GameMode`):
  - numbers the level's area volumes and objectives in discovery order;
  - seeds the cache, including the single fallback area;
  - applies the manager's server updates;
  - applies a capture locally, or reports it to the manager when connected;
  - builds the join request and applies the join response;
  - decides whether entering an area needs a handoff;
  - builds the reconnect URL from a navigate response;
  - builds the objectives upload.
- **The game-mode component, older revision** (`GameModeLegacy`), kept as its own module:
  - seeds the cache in one initialisation pass;
  - fills in each objective's area when play begins;
  - makes a random faction pick at login;
  - splits login into a join or a registration;
  - takes the faction index straight from the join response;
  - builds a reconnect URL without a faction.
- **The per-entity components**, each holding a delegate broadcast count as a ghost counter:
  - area (`Area`);
  - objective (`ObjectiveComp`), with its change-notifying setter and its link graph, which editor edits keep symmetric;
  - controller, player controller and player state (`Player`);
  - pawn (`Pawn`).

How the model is built:

- **Records** are datatypes (`Records`) with the structs' `-1` "unassigned" defaults.
- **Components whose fields the source updates in place** are classes, with `modifies` frames.
- **A pointer into a cache array** is modelled as the record's position. It comes back as `Option<nat>`, with `None` standing for a null pointer.
- **Narrowing an `int64` into an `int32`** is written out as `Numeric.I32` wherever the source narrows: getters, parameters, locals and `%d` formatting.
- **Lists with duplicates removed:**
  - a `TSet` is a duplicate-free sequence, in insertion order;
  - the `Reset()`-then-`AddUnique` loops are `Lists.AddUniqueAll`, specified by `Lists.Dedup`.
- **The receiving server's side of a reconnect URL** (`Travel`) is the engine's option lookup, modelled by the behaviour the plugin relies on. This lets the handoff be shown to carry the player's identity across:
  - `Travel.Segments` cuts a URL at its `?` separators;
  - `Travel.FindOption` takes the value of the first option whose key matches, ignoring ASCII case, as the engine's `FString` comparison does;
  - `Travel.GetIntOption` reads that value as a decimal, falling back to the default when the option is missing or empty.
- **Helpers without rows of their own** define what the contracts talk about and prove nothing by themselves:
  - `GameMode.AreaComponents` and `GameMode.ObjectiveComponents` only project each volume or actor to its component, to name `modifies` frames;
  - `GameMode.FactionsIndexed` says that each faction's index is its position and the IDs are distinct and assigned;
  - `GameMode.DiscoveredArea`, `GameMode.FallbackArea` and `GameMode.DiscoveredObjective` are the records initialisation writes;
  - `GameState.GameStateComponent.IndexedObjectiveFound`, `GameState.GameStateComponent.HeldPositionsSnoc` and `GameModeLegacy.FirstByIndexUnique` are proof steps for the lemmas and methods that use them.
- **Standing in for the transport:**
  - HTTP responses and STOMP events are input datatypes;
  - a sent STOMP message is appended to a log field;
  - kicking, restarting or travelling a player comes back as an outcome tag.

## Model

| member | source | states |
|---|---|---|
| Records.NewArea | Source/AdhocPlugin/Public/Area/AdhocAreaState.h:33-53 | A fresh area record has ID, Version, RegionID, Index and ServerID -1 and an empty name; location and size are whatever the storage held |
| Records.NewObjective | Source/AdhocPlugin/Public/Objective/AdhocObjectiveState.h:33-68 | A fresh objective record has every ID and index -1, is unclaimed, lies in no area and has no links |
| Records.NewServer | Source/AdhocPlugin/Public/Server/AdhocServerState.h:33-66 | A fresh server record carries the given ID, Version and RegionID -1, empty area lists and IPs, port -1, and unconstrained enabled/active flags |
| Lists.FirstMatch | Source/AdhocPlugin/Private/Game/AdhocGameStateComponent.cpp:69-79 | The scan returns the first position satisfying the key test, and absent exactly when no element does |
| Lists.AddUnique | Source/AdhocPlugin/Private/Game/AdhocGameModeComponent.cpp:1245-1249 | `AddUnique` keeps the list as a prefix, adds the element only if absent, and preserves duplicate-freedom |
| Lists.Dedup | Source/AdhocPlugin/Private/Game/AdhocGameModeComponent.cpp:1245-1255 | What a reset followed by `AddUnique` of every element leaves: duplicate-free, with exactly the input's elements |
| Lists.DedupOfNoDup | Source/AdhocPlugin/Private/Game/AdhocGameModeComponent.cpp:1245-1255 | A list that is already duplicate-free is rebuilt unchanged |
| Lists.DedupIdempotent | Source/AdhocPlugin/Private/Game/AdhocGameModeComponent.cpp:1245-1255 | Rebuilding a rebuilt list changes nothing |
| Lists.AddUniqueAll | Source/AdhocPlugin/Private/Game/AdhocGameModeComponent.cpp:1245-1255 | The `AddUnique` loop computes exactly `Dedup` of its input |
| Lists.Remove | Source/AdhocPlugin/Private/Objective/AdhocObjectiveComponent.cpp:151 | `TSet::Remove` drops the element, keeps every other one, and preserves duplicate-freedom |
| Numeric.I32 | Source/AdhocPlugin/Public/AdhocGameStateComponent.h:66-67 | Narrowing to `int32` yields an `int32` congruent to the input modulo 2^32, and the input itself when it fits |
| Numeric.I32AliasesSentinel | Source/AdhocPlugin/Public/AdhocGameStateComponent.h:66 | An ID of 2^32-1 reads back through an `int32` getter as the sentinel -1 |
| Numeric.DecimalRoundTrip | Source/AdhocPlugin/Private/Game/AdhocGameModeComponent.cpp:1564-1575 | A number printed with `%d` and parsed back as a decimal integer is the same number |
| GameState.GameStateComponent.constructor | Source/AdhocPlugin/Public/AdhocGameStateComponent.h:37-48 | Server and region IDs start at 1, and every collection starts empty |
| GameState.GameStateComponent.GetServerID | Source/AdhocPlugin/Public/AdhocGameStateComponent.h:66 | The `int32` getter returns the `int64` field narrowed: equal to it when it fits, otherwise congruent modulo 2^32 |
| GameState.GameStateComponent.GetRegionID | Source/AdhocPlugin/Public/AdhocGameStateComponent.h:67 | As `GetServerID`, for the region ID |
| GameState.GameStateComponent.SetServerID | Source/AdhocPlugin/Public/AdhocGameStateComponent.h:70 | Sets the server ID and nothing else |
| GameState.GameStateComponent.SetRegionID | Source/AdhocPlugin/Public/AdhocGameStateComponent.h:71 | Sets the region ID and nothing else |
| GameState.GameStateComponent.SetActiveAreaIndexes | Source/AdhocPlugin/Public/AdhocGameStateComponent.h:72 | Replaces the active set with exactly the given indexes; nothing else changes |
| GameState.GameStateComponent.GetNumFactions | Source/AdhocPlugin/Public/AdhocGameStateComponent.h:74 | The number of factions is the faction list's length |
| GameState.GameStateComponent.GetFaction | Source/AdhocPlugin/Public/AdhocGameStateComponent.h:75 | A direct index whose caller must pass a valid faction index; the faction returned is in the list, and its colour is what `GetFactionColorSafe` returns |
| GameState.GameStateComponent.SetFactions | Source/AdhocPlugin/Private/Game/AdhocGameStateComponent.cpp:45-49 | Empty-and-append leaves the factions exactly equal to the argument; the other collections are untouched (field frame) |
| GameState.GameStateComponent.SetObjectives | Source/AdhocPlugin/Private/Game/AdhocGameStateComponent.cpp:51-55 | As `SetFactions`, for the objectives |
| GameState.GameStateComponent.SetAreas | Source/AdhocPlugin/Private/Game/AdhocGameStateComponent.cpp:57-61 | As `SetFactions`, for the areas |
| GameState.GameStateComponent.SetServers | Source/AdhocPlugin/Private/Game/AdhocGameStateComponent.cpp:63-67 | As `SetFactions`, for the servers |
| GameState.GameStateComponent.FindFactionByID | Source/AdhocPlugin/Private/Game/AdhocGameStateComponent.cpp:69-79 | The first faction with the ID, or absent exactly when none has it; reads only |
| GameState.GameStateComponent.FindAreaByID | Source/AdhocPlugin/Private/Game/AdhocGameStateComponent.cpp:81-91 | The first area with the ID, or absent exactly when none has it |
| GameState.GameStateComponent.FindAreaByIndex | Source/AdhocPlugin/Private/Game/AdhocGameStateComponent.cpp:93-103 | The first area with the index, or absent exactly when none has it |
| GameState.GameStateComponent.FindAreaByRegionIDAndIndex | Source/AdhocPlugin/Private/Game/AdhocGameStateComponent.cpp:105-115 | The first area matching both region and index, or absent exactly when none does |
| GameState.GameStateComponent.FindObjectiveByID | Source/AdhocPlugin/Private/Game/AdhocGameStateComponent.cpp:117-127 | The first objective with the ID, or absent exactly when none has it |
| GameState.GameStateComponent.FindObjectiveByIndex | Source/AdhocPlugin/Private/Game/AdhocGameStateComponent.cpp:129-139 | The first objective with the index, or absent exactly when none has it |
| GameState.GameStateComponent.FindObjectiveByRegionIDAndIndex | Source/AdhocPlugin/Private/Game/AdhocGameStateComponent.cpp:141-151 | The first objective matching both region and index, or absent exactly when none does |
| GameState.GameStateComponent.FindServerByID | Source/AdhocPlugin/Private/Game/AdhocGameStateComponent.cpp:153-163 | As written: the first server whose ID is this node's own `ServerID`, whatever the argument; absent exactly when there is none |
| GameState.GameStateComponent.FindServerByIDIgnoresArgument | Source/AdhocPlugin/Private/Game/AdhocGameStateComponent.cpp:157 | The lookup gives the same answer for every argument |
| GameState.GameStateComponent.FindServerByIDIntended | Source/AdhocPlugin/Private/Game/AdhocGameStateComponent.cpp:153-163 | The lookup the name promises: the first server whose ID is the argument |
| GameState.GameStateComponent.FindServerByAreaID | Source/AdhocPlugin/Private/Game/AdhocGameStateComponent.cpp:165-175 | The first server whose area IDs include the argument, or absent exactly when none does |
| GameState.GameStateComponent.FindOrInsertServerByID | Source/AdhocPlugin/Private/Game/AdhocGameStateComponent.cpp:177-188 | When the as-written lookup finds a record, the servers are unchanged and that position is returned; otherwise exactly one default record carrying the argument is appended and its position returned |
| GameState.GameStateComponent.FindOrInsertServerByIDIntended | Source/AdhocPlugin/Private/Game/AdhocGameStateComponent.cpp:177-188 | The same upsert over the intended lookup; the record returned always carries the argument's ID |
| GameState.GameStateComponent.GetFactionColorSafe | Source/AdhocPlugin/Private/Game/AdhocGameStateComponent.cpp:190-228 | The faction's colour for a valid index, gray (127,127,127) otherwise |
| GameState.GameStateComponent.CountActiveHeldBy | Source/AdhocPlugin/Private/Game/AdhocGameStateComponent.cpp:258-271 | The count of active objectives held by a faction is at most the number of objectives |
| GameState.GameStateComponent.CountIsNumberHeld | Source/AdhocPlugin/Private/Game/AdhocGameStateComponent.cpp:258-271 | The count equals the number of positions whose objective is active (area -1 or in the active set) and held by the faction |
| GameState.GameStateComponent.CountPositiveWhenHeld | Source/AdhocPlugin/Private/Game/AdhocGameStateComponent.cpp:258-271 | One active objective held by the faction makes the count positive |
| GameState.GameStateComponent.CountZeroIff | Source/AdhocPlugin/Private/Game/AdhocGameStateComponent.cpp:258-271 | The count is zero exactly when no objective is active and held by the faction |
| GameState.GameStateComponent.GetNumActiveObjectivesByFactionIndex | Source/AdhocPlugin/Private/Game/AdhocGameStateComponent.cpp:258-271 | The counting loop returns `CountActiveHeldBy` of the objectives, between 0 and their number |
| GameState.GameStateComponent.AnyLinkHeld | Source/AdhocPlugin/Private/Game/AdhocGameStateComponent.cpp:280-293 | True exactly when some link resolves to an objective whose faction passes the test |
| GameState.GameStateComponent.IsStateLinkedToFriendlyObjective | Source/AdhocPlugin/Private/Game/AdhocGameStateComponent.cpp:280-293 | True exactly when some resolvable link leads to an objective held by the faction |
| GameState.GameStateComponent.IsStateLinkedToEnemyObjective | Source/AdhocPlugin/Private/Game/AdhocGameStateComponent.cpp:302-314 | True exactly when some resolvable link leads to an objective not held by the faction (unclaimed included) |
| GameState.GameStateComponent.IsObjectiveLinkedToFriendlyObjective | Source/AdhocPlugin/Private/Game/AdhocGameStateComponent.cpp:273-278 | False for an unknown objective index, otherwise the friendly-link check of its record |
| GameState.GameStateComponent.IsObjectiveLinkedToEnemyObjective | Source/AdhocPlugin/Private/Game/AdhocGameStateComponent.cpp:295-300 | False for an unknown objective index, otherwise the enemy-link check of its record |
| GameState.GameStateComponent.DanglingLinkIgnored | Source/AdhocPlugin/Private/Game/AdhocGameStateComponent.cpp:284-292 | A link whose index resolves to no objective changes neither link check |
| GameState.GameStateComponent.UnclaimedLinkIsEnemy | Source/AdhocPlugin/Private/Game/AdhocGameStateComponent.cpp:302-314 | A link to an unclaimed objective counts as enemy for every real faction |
| GameState.GameStateComponent.IsObjectiveActiveAndTakeableByFaction | Source/AdhocPlugin/Private/Game/AdhocGameStateComponent.cpp:230-247 | Takeable exactly when the first objective with the index exists, lies in an active area (or none), is not held by the faction, and is unclaimed, linked to an objective the faction holds, unlinked, or the faction holds no active objective at all |
| GameState.GameStateComponent.NotTakeableWhenMissing | Source/AdhocPlugin/Private/Game/AdhocGameStateComponent.cpp:232-234 | An objective index that is not found is never takeable |
| GameState.GameStateComponent.NotTakeableOutsideActiveAreas | Source/AdhocPlugin/Public/AdhocGameStateComponent.h:45-47 | An objective whose area is neither -1 nor active is never takeable |
| GameState.GameStateComponent.NotTakeableWhenAlreadyHeld | Source/AdhocPlugin/Private/Game/AdhocGameStateComponent.cpp:237-238 | A faction cannot take an objective it already holds |
| GameState.GameStateComponent.TakeableWhenUnclaimed | Source/AdhocPlugin/Private/Game/AdhocGameStateComponent.cpp:240-246 | An active unclaimed objective is takeable by every real faction |
| GameState.GameStateComponent.TakeableWhenUnlinked | Source/AdhocPlugin/Private/Game/AdhocGameStateComponent.cpp:240-246 | An active objective with no links is takeable by every faction not holding it |
| GameState.GameStateComponent.TakeableWithoutFoothold | Source/AdhocPlugin/Private/Game/AdhocGameStateComponent.cpp:240-246 | A faction holding no active objective may take any active objective it does not hold |
| GameState.GameStateComponent.TakeableWhenLinkedToFriendly | Source/AdhocPlugin/Private/Game/AdhocGameStateComponent.cpp:240-246 | An active objective linked to one the faction holds is takeable by it |
| GameState.GameStateComponent.NotTakeableBehindFrontLine | Source/AdhocPlugin/Private/Game/AdhocGameStateComponent.cpp:240-246 | An objective held by another faction, with links none of which is the faction's, is not takeable while the faction holds some active objective |
| GameState.GameStateComponent.FreshObjectiveTakeable | Source/AdhocPlugin/Private/Game/AdhocGameStateComponent.cpp:230-246 | A fresh default record is takeable by every real faction |
| Area.AreaComponent.constructor | Source/AdhocPlugin/Public/Area/AdhocAreaComponent.h:36-38 | The name is the designer's (default "Area") and the index starts unassigned |
| Area.AreaComponent.SetAreaIndex | Source/AdhocPlugin/Private/Game/AdhocGameModeComponent.cpp:232 | Sets the area index and nothing else |
| ObjectiveComp.ObjectiveComponent.constructor | Source/AdhocPlugin/Public/Objective/AdhocObjectiveComponent.h:41-65 | Editor properties as given; index and faction -1, no area, no broadcasts |
| ObjectiveComp.ObjectiveComponent.ContainingArea | Source/AdhocPlugin/Private/Objective/AdhocObjectiveComponent.cpp:68-89 | The first candidate that is an area and intersects, or absent exactly when none does |
| ObjectiveComp.ObjectiveComponent.InitializeComponent | Source/AdhocPlugin/Private/Objective/AdhocObjectiveComponent.cpp:53-89 | The owner ends tagged "Adhoc_Objective", with the tag added only when absent; the area is the first intersecting one, or unchanged when none intersects |
| ObjectiveComp.ObjectiveComponent.AreaIndexSafe | Source/AdhocPlugin/Private/Game/AdhocGameModeComponent.cpp:330 | The containing area's index, or -1 without an area |
| ObjectiveComp.ObjectiveComponent.SetObjectiveIndex | Source/AdhocPlugin/Private/Game/AdhocGameModeComponent.cpp:320 | Sets the objective index and nothing else |
| ObjectiveComp.ObjectiveComponent.SetFactionIndex | Source/AdhocPlugin/Private/Objective/AdhocObjectiveComponent.cpp:92-102 | Stores the new holder and broadcasts exactly once iff it differs from the old one |
| ObjectiveComp.ObjectiveComponent.OnRepFactionIndex | Source/AdhocPlugin/Private/Objective/AdhocObjectiveComponent.cpp:104-107 | A replicated holder always broadcasts once |
| ObjectiveComp.ObjectiveComponent.WithoutBackLink | Source/AdhocPlugin/Private/Objective/AdhocObjectiveComponent.cpp:148-151 | Another objective's links lose the back-link to this one only when this one does not link to it; the other links remain |
| ObjectiveComp.ObjectiveComponent.PostEditChangeProperty | Source/AdhocPlugin/Private/Objective/AdhocObjectiveComponent.cpp:110-154 | Another property changes no links. After a value-set edit, every linked objective links back, without duplicates. After a removal, no objective in the world links here unless linked from here. This objective's own links never change |
| ObjectiveComp.ObjectiveComponent.AddBackLinks | Source/AdhocPlugin/Private/Objective/AdhocObjectiveComponent.cpp:120-134 | Every linked objective ends linked back, added once at the end when missing; objectives not linked from here and this one's own links are untouched |
| ObjectiveComp.ObjectiveComponent.DropBackLinks | Source/AdhocPlugin/Private/Objective/AdhocObjectiveComponent.cpp:136-153 | Every objective in the world drops its back-link exactly when it links here and is not linked from here; this one's own links are untouched |
| ObjectiveComp.FindByObjectiveIndex | Source/AdhocPlugin/Private/Game/AdhocGameModeComponent.cpp:497-512 | The first component in world order with the index, or absent exactly when none has it |
| Pawn.PawnComponent.constructor | Source/AdhocPlugin/Public/Pawn/AdhocPawnComponent.h:43-65 | Zero GUID, empty strings, user ID -1, not human, faction -1, no broadcasts |
| Pawn.PawnComponent.InitializeComponent | Source/AdhocPlugin/Private/Pawn/AdhocPawnComponent.cpp:34-45 | A new GUID is assigned only with authority |
| Pawn.PawnComponent.SetFriendlyName | Source/AdhocPlugin/Private/Pawn/AdhocPawnComponent.cpp:55-65 | Sets the name and broadcasts iff it changed |
| Pawn.PawnComponent.SetFactionIndex | Source/AdhocPlugin/Private/Pawn/AdhocPawnComponent.cpp:67-77 | Sets the faction and broadcasts iff it changed |
| Pawn.PawnComponent.OnRepFriendlyName | Source/AdhocPlugin/Private/Pawn/AdhocPawnComponent.cpp:79-82 | Always broadcasts once |
| Pawn.PawnComponent.OnRepFactionIndex | Source/AdhocPlugin/Private/Pawn/AdhocPawnComponent.cpp:84-87 | Always broadcasts once |
| Player.ControllerComponent.constructor | Source/AdhocPlugin/Public/Player/AdhocPlayerControllerComponent.h:35-44 | User ID -1, empty token, no spawn transform, faction -1; a bot's controller is named "Bot" |
| Player.ControllerComponent.SetFriendlyName | Source/AdhocPlugin/Private/Player/AdhocControllerComponent.cpp:57-67 | Sets the name and broadcasts iff it changed |
| Player.ControllerComponent.SetFactionIndex | Source/AdhocPlugin/Private/Player/AdhocControllerComponent.cpp:69-79 | Stores the `int64` argument narrowed into the `int32` field, and broadcasts iff the argument differs from the old value |
| Player.ControllerComponent.OnRepFriendlyName | Source/AdhocPlugin/Private/Player/AdhocControllerComponent.cpp:121-124 | Always broadcasts once |
| Player.ControllerComponent.OnRepFactionIndex | Source/AdhocPlugin/Private/Player/AdhocControllerComponent.cpp:126-129 | Always broadcasts once |
| Player.ControllerComponent.OnNewPawn | Source/AdhocPlugin/Private/Player/AdhocControllerComponent.cpp:81-119 | A null pawn or missing authority changes nothing. Otherwise the pawn takes the controller's name only if it has none and the controller has one, and the controller's faction only if it has none, broadcasting only on those changes |
| Player.ControllerComponent.SetUserID | Source/AdhocPlugin/Public/Player/AdhocPlayerControllerComponent.h:53 | Set then get returns the user ID |
| Player.ControllerComponent.SetToken | Source/AdhocPlugin/Public/Player/AdhocPlayerControllerComponent.h:54 | Set then get returns the token |
| Player.ControllerComponent.SetImmediateSpawnTransform | Source/AdhocPlugin/Public/Player/AdhocPlayerControllerComponent.h:55 | Set then get returns the transform |
| Player.ControllerComponent.ClearImmediateSpawnTransform | Source/AdhocPlugin/Public/Player/AdhocPlayerControllerComponent.h:57 | Leaves the spawn transform unset |
| Player.PlayerStateComponent.constructor | Source/AdhocPlugin/Public/Player/AdhocPlayerStateComponent.h:35-38 | Faction and user ID start at -1 |
| Player.PlayerStateComponent.SetFactionIndex | Source/AdhocPlugin/Public/Player/AdhocPlayerStateComponent.h:46 | Stores the faction index as `int32` |
| Player.PlayerStateComponent.SetUserID | Source/AdhocPlugin/Public/Player/AdhocPlayerStateComponent.h:47 | Stores the user ID narrowed to `int32` |
| Travel.FindOption | Source/AdhocPlugin/Private/Game/AdhocGameModeComponent.cpp:378-382 | The value of the first option whose key matches ignoring ASCII case, or nothing exactly when no option matches |
| Travel.FindOptionSameKey | Source/AdhocPlugin/Private/AdhocGameModeComponent.cpp:347 | Two spellings of a key that differ only in case find the same option |
| Travel.GetIntOptionSameKey | Source/AdhocPlugin/Private/AdhocGameModeComponent.cpp:347 | Two spellings of a key that differ only in case read the same number |
| Travel.AppendOption | Source/AdhocPlugin/Private/Game/AdhocGameModeComponent.cpp:1557-1580 | Appending `?option` to an assembled URL equals assembling the URL from the option list extended by it |
| Travel.URLOptionsOfReconnect | Source/AdhocPlugin/Private/Game/AdhocGameModeComponent.cpp:1557-1580 | Cutting a reconnect URL at its `?` separators gives back the host part and exactly the options it was built from |
| Travel.ReconnectOptionsReadBack | Source/AdhocPlugin/Private/Game/AdhocGameModeComponent.cpp:1557-1580 | The receiving side finds every option the URL was built with, and finds none of those left off |
| Travel.ReconnectIntOptionsReadBack | Source/AdhocPlugin/Private/Game/AdhocGameModeComponent.cpp:1557-1580 | The integer options read back as the values sent, or -1 when left off |
| Travel.IntOptionReadBack | Source/AdhocPlugin/Private/Game/AdhocGameModeComponent.cpp:378-380 | An option holding a printed number reads back as that number, and a missing one as the default -1 |
| GameMode.VolumeSize | Source/AdhocPlugin/Private/Game/AdhocGameModeComponent.cpp:240 | A volume's extent is its scale times 200 on each axis |
| GameMode.LinkIndexes | Source/AdhocPlugin/Private/Game/AdhocGameModeComponent.cpp:352-359 | The linked components' objective indexes, in link order |
| GameMode.ApplyServerUpdate | Source/AdhocPlugin/Private/Game/AdhocGameModeComponent.cpp:1236-1255 | Every field but Version comes from the event (IDs as `int32`), and the area lists hold exactly the event's elements without duplicates |
| GameMode.ApplyServerUpdateKeepsDuplicateFreeLists | Source/AdhocPlugin/Private/Game/AdhocGameModeComponent.cpp:1245-1255 | Duplicate-free event lists are stored exactly as sent |
| GameMode.ApplyServerUpdateIdempotent | Source/AdhocPlugin/Private/Game/AdhocGameModeComponent.cpp:1236-1255 | Applying the same update twice is applying it once |
| GameMode.SpawnTransform | Source/AdhocPlugin/Private/Game/AdhocGameModeComponent.cpp:1378-1401 | The resume location becomes a spawn transform with no roll and X mirrored back |
| GameMode.SubmittedLinks | Source/AdhocPlugin/Private/Game/AdhocGameModeComponent.cpp:1092-1107 | An index is uploaded exactly when some linked objective in an area has it |
| GameMode.Submission | Source/AdhocPlugin/Private/Game/AdhocGameModeComponent.cpp:1054-1112 | The entry carries the objective's index and area, and its initial faction exactly when that is not -1 |
| GameMode.Submissions | Source/AdhocPlugin/Private/Game/AdhocGameModeComponent.cpp:1038-1114 | At most one entry per actor, each for an objective lying in an area |
| GameMode.SubmissionsComplete | Source/AdhocPlugin/Private/Game/AdhocGameModeComponent.cpp:1038-1114 | Every objective lying in an area has its entry in the upload |
| GameMode.SubmissionsSound | Source/AdhocPlugin/Private/Game/AdhocGameModeComponent.cpp:1038-1114 | Every entry of the upload is the entry of some objective lying in an area |
| GameMode.GameModeComponent.constructor | Source/AdhocPlugin/Private/Game/AdhocGameModeComponent.cpp:53-59 | Starts disconnected, with nothing sent and no broadcasts |
| GameMode.GameModeComponent.InitFactionStates | Source/AdhocPlugin/Private/Game/AdhocGameModeComponent.cpp:187-218 | The cache holds the three default factions, indexed by position with distinct IDs |
| GameMode.GameModeComponent.InitAreaStates | Source/AdhocPlugin/Private/Game/AdhocGameModeComponent.cpp:220-279 | Volumes get dense indexes 0..n-1 in discovery order, and one record each. With no volumes, the single fallback area "A" (index 0, this server's ID) is recorded. The active set is [0] either way |
| GameMode.NumberAreas | Source/AdhocPlugin/Private/Game/AdhocGameModeComponent.cpp:223-274 | Volumes get dense indexes 0..n-1 in discovery order and one record each, whose index is its position; with no volumes, the fallback area alone; the active set is [0] either way |
| GameMode.GameModeComponent.InitServerStates | Source/AdhocPlugin/Private/Game/AdhocGameModeComponent.cpp:281-302 | The cache holds one record for this server, on port 8889 with the private IP. The own-ID lookup finds it exactly when the ID fits in `int32` |
| GameMode.GameModeComponent.FirstPassRecord | Source/AdhocPlugin/Private/Game/AdhocGameModeComponent.cpp:322-331 | The first-pass record of the k-th objective has index k, this region, and no links yet |
| GameMode.GameModeComponent.NumberObjectives | Source/AdhocPlugin/Private/Game/AdhocGameModeComponent.cpp:307-336 | Objective components get dense indexes in discovery order, with one first-pass record each |
| GameMode.GameModeComponent.LinkObjectives | Source/AdhocPlugin/Private/Game/AdhocGameModeComponent.cpp:338-362 | Each record found by region and index (always its own) receives its component's linked indexes, without duplicates; nothing else changes |
| GameMode.LinkAll | Source/AdhocPlugin/Private/Game/AdhocGameModeComponent.cpp:340-361 | Each record at an actor's index receives that component's linked indexes, without duplicates; the rest of every record is unchanged |
| GameMode.LinkRecord | Source/AdhocPlugin/Private/Game/AdhocGameModeComponent.cpp:350-360 | The one record found by region and index, which is the record at that position, has its links replaced by the indexes without duplicates; no other record changes |
| GameMode.GameModeComponent.InitObjectiveStates | Source/AdhocPlugin/Private/Game/AdhocGameModeComponent.cpp:304-363 | Dense indexes in discovery order, plus one record per objective with its deduplicated linked indexes |
| GameMode.GameModeComponent.SetActiveAreas | Source/AdhocPlugin/Private/Game/AdhocGameModeComponent.cpp:1263-1278 | Replaces the active set only when the region is this node's region |
| GameMode.GameModeComponent.ApplyUpdateAt | Source/AdhocPlugin/Private/Game/AdhocGameModeComponent.cpp:1236-1255 | Only the record at the position changes, to `ApplyServerUpdate` of it |
| GameMode.GameModeComponent.OnServerUpdatedEvent | Source/AdhocPlugin/Private/Game/AdhocGameModeComponent.cpp:1226-1261 | The record the as-written own-ID lookup finds is overwritten, or else a new one is appended. The active areas follow the event only for this server's ID and region |
| GameMode.GameModeComponent.OnServerUpdatedEventIntended | Source/AdhocPlugin/Private/Game/AdhocGameModeComponent.cpp:1226-1261 | The intended update: the event's own server record changes and no other server's record does |
| GameMode.GameModeComponent.OnServerUpdatedMessage | Source/AdhocPlugin/Private/Game/AdhocGameModeComponent.cpp:728-757 | The `ServerUpdated` event, with its lists deduplicated while reading; the adopted active set is duplicate-free |
| GameMode.GameModeComponent.OnObjectiveTakenEvent | Source/AdhocPlugin/Private/Game/AdhocGameModeComponent.cpp:487-515 | The record passes to the faction (ID and index), and the first component with its index takes the faction's index. The capture is broadcast once; the captor then cannot take it again |
| GameMode.GameModeComponent.ObjectiveTaken | Source/AdhocPlugin/Private/Game/AdhocGameModeComponent.cpp:461-485 | When connected, only a message with both IDs is sent and local state is unchanged; when disconnected, the capture is applied at once |
| GameMode.GameModeComponent.OnObjectiveTakenMessage | Source/AdhocPlugin/Private/Game/AdhocGameModeComponent.cpp:712-727 | An event naming a known objective and faction (IDs read as `int32`) is applied; any other changes nothing |
| GameMode.GameModeComponent.JoinRequestBody | Source/AdhocPlugin/Private/Game/AdhocGameModeComponent.cpp:1285-1310 | Always carries serverId and human. userId is present iff it is not -1, factionId iff the faction is set and its ID is not -1, and token iff a human has a non-empty one |
| GameMode.GameModeComponent.JoinFactionIndex | Source/AdhocPlugin/Private/Game/AdhocGameModeComponent.cpp:1403-1411 | A response's faction ID maps to the index recorded in the first faction with that ID; it is -1 when the ID is -1 or no faction has it |
| GameMode.GameModeComponent.JoinFactionRoundTrip | Source/AdhocPlugin/Private/Game/AdhocGameModeComponent.cpp:1403-1411 | A faction ID echoed back by the manager restores the controller's faction index |
| GameMode.GameModeComponent.FactionFoundByID | Source/AdhocPlugin/Private/Game/AdhocGameStateComponent.cpp:69-79 | With distinct faction IDs, a faction is found by its own ID |
| GameMode.GameModeComponent.OnUserJoinResponse | Source/AdhocPlugin/Private/Game/AdhocGameModeComponent.cpp:1333-1465 | A failure kicks a player when asked and changes nothing. A success names the controller, the player state and the pawn after the user and moves them to the mapped faction. It keeps the token (players) or the user ID (bots) and stages the resume transform |
| GameMode.GameModeComponent.JoinController | Source/AdhocPlugin/Private/Game/AdhocGameModeComponent.cpp:1378-1426 | The controller's share of a successful join |
| GameMode.GameModeComponent.JoinPlayerState | Source/AdhocPlugin/Private/Game/AdhocGameModeComponent.cpp:1428-1438 | The player state takes the user's name, and the user ID and faction index narrowed to `int32` |
| GameMode.GameModeComponent.JoinPawn | Source/AdhocPlugin/Private/Game/AdhocGameModeComponent.cpp:1440-1450 | The pawn takes the user's name and faction index, broadcasting for each only when it changes |
| GameMode.GameModeComponent.PlayerEnterArea | Source/AdhocPlugin/Private/Game/AdhocGameModeComponent.cpp:566-607 | Nothing happens if the area is already active, unknown, has ID -1 (as `int32`), or the player has no user ID. Only otherwise is a navigate submitted, carrying that area's ID, the user, this server and the mirrored location |
| GameMode.GameModeComponent.NavigateTarget | Source/AdhocPlugin/Private/Game/AdhocGameModeComponent.cpp:1546-1580 | A response is rejected iff the server ID or port is not positive or the IP or WebSocket URL is empty. Otherwise UserID, FactionID and Token follow on their conditions |
| GameMode.GameModeComponent.OnNavigateResponse | Source/AdhocPlugin/Private/Game/AdhocGameModeComponent.cpp:1527-1594 | The URL assembled by successive appends is exactly `ReconnectURL` of the target, or there is no travel |
| GameMode.GameModeComponent.NavigateCarriesIdentity | Source/AdhocPlugin/Private/Game/AdhocGameModeComponent.cpp:1557-1580 | The destination reads back the WebSocket URL, the token, and the user and faction IDs as `int32` (or -1 when left off) |
| GameMode.GameModeComponent.NavigateKeepsFaction | Source/AdhocPlugin/Private/Game/AdhocGameModeComponent.cpp:1568-1576 | With indexed factions whose IDs fit in `int32`, the faction read from the URL maps back to the player's faction |
| GameMode.GameModeComponent.SubmitLinks | Source/AdhocPlugin/Private/Game/AdhocGameModeComponent.cpp:1092-1107 | The inner loop computes `SubmittedLinks` |
| GameMode.GameModeComponent.SubmitObjectives | Source/AdhocPlugin/Private/Game/AdhocGameModeComponent.cpp:1032-1114 | The loop builds exactly `Submissions` of the world |
| GameMode.OwnRecordOverwrittenExample | Source/AdhocPlugin/Private/Game/AdhocGameStateComponent.cpp:157 | As written, an event about server 2 overwrites server 1's own record, leaving no record for server 1 |
| GameMode.OwnRecordKeptExample | Source/AdhocPlugin/Private/Game/AdhocGameStateComponent.cpp:157 | Under the intended lookup the same event keeps server 1's record and adds server 2's |
| GameModeLegacy.CommandLineID | Source/AdhocPlugin/Private/AdhocGameModeComponent.cpp:106-109 | An ID option absent from the command line defaults to 1 |
| GameModeLegacy.StartingFactionIndex | Source/AdhocPlugin/Private/AdhocGameModeComponent.cpp:243 | An objective starts with its actor's faction, or its initial faction when the actor has none; it starts unclaimed iff both are -1 |
| GameModeLegacy.DiscoveredObjectiveRecord | Source/AdhocPlugin/Private/AdhocGameModeComponent.cpp:236-245 | The k-th discovered record has index k, this region, no links, no area yet, and the starting faction |
| GameModeLegacy.ApplyStatusUpdate | Source/AdhocPlugin/Private/AdhocGameModeComponent.cpp:1140-1157 | ID, region, addresses and port come from the event, and the area lists hold exactly the event's elements without duplicates. Version, enabled and active are kept |
| GameModeLegacy.ApplyStatusUpdateIdempotent | Source/AdhocPlugin/Private/AdhocGameModeComponent.cpp:1140-1157 | Applying the same update twice is applying it once |
| GameModeLegacy.GameModeComponent.constructor | Source/AdhocPlugin/Private/AdhocGameModeComponent.cpp:42-47 | Holds the cache and the private IP |
| GameModeLegacy.GameModeComponent.InitializeComponent | Source/AdhocPlugin/Private/AdhocGameModeComponent.cpp:49-277 | IDs from the command line (default 1) and the four starting factions. Dense area indexes with the fallback area and active set [0]. One server record on port 8889. Dense objective indexes, each record with the starting faction and deduplicated links |
| GameModeLegacy.GameModeComponent.SeedServer | Source/AdhocPlugin/Private/AdhocGameModeComponent.cpp:203-219 | One server record: this server's ID and region, the active areas, the private IP as both addresses, and WebSocket port 8889 |
| GameModeLegacy.GameModeComponent.SeedObjectives | Source/AdhocPlugin/Private/AdhocGameModeComponent.cpp:221-272 | Objectives numbered in discovery order, one record each with its links as indexes without duplicates |
| GameModeLegacy.GameModeComponent.DiscoverAreas | Source/AdhocPlugin/Private/AdhocGameModeComponent.cpp:147-201 | Volumes numbered in discovery order with one record each, or the fallback area; active set [0] |
| GameModeLegacy.GameModeComponent.DiscoverObjectives | Source/AdhocPlugin/Private/AdhocGameModeComponent.cpp:222-250 | Objectives numbered in discovery order with one discovered record each |
| GameModeLegacy.GameModeComponent.LinkDiscoveredObjectives | Source/AdhocPlugin/Private/AdhocGameModeComponent.cpp:252-272 | Each record found by region and index receives its component's linked indexes without duplicates; nothing else changes |
| GameModeLegacy.GameModeComponent.BeginPlay | Source/AdhocPlugin/Private/AdhocGameModeComponent.cpp:279-301 | Each actor's record, found by its index, takes the area index the actor lies in (-1 for none); records no actor names are untouched |
| GameModeLegacy.GameModeComponent.FillAreaIndexes | Source/AdhocPlugin/Private/AdhocGameModeComponent.cpp:285-302 | The loop of `BeginPlay` over the record positions found when it starts |
| GameModeLegacy.StoreObjectiveArea | Source/AdhocPlugin/Private/AdhocGameModeComponent.cpp:292-300 | The first record with the actor's index, which the start-of-loop positions name, takes the area index; no other record changes |
| GameModeLegacy.GameModeComponent.Login | Source/AdhocPlugin/Private/AdhocGameModeComponent.cpp:334-355 | The player state and controller get the same random faction in [0, n), or 0 with no factions. The controller stores the user ID and token, so `PostLogin` then joins iff both are set |
| GameModeLegacy.GameModeComponent.PostLogin | Source/AdhocPlugin/Private/AdhocGameModeComponent.cpp:357-378 | A join (userId, serverId, token, kicking on failure) iff the user ID is not -1 and the token non-empty; otherwise a register (serverId only, no kick) |
| GameModeLegacy.GameModeComponent.OnUserJoinResponse | Source/AdhocPlugin/Private/AdhocGameModeComponent.cpp:1240-1340 | A failure kicks only when asked (join path) and changes nothing. A success sets the player state's name, user ID and faction, and the controller's faction and token, with the faction index taken straight from the response. It moves the pawn and restarts the player when a spawn transform is set and play has begun |
| GameModeLegacy.GameModeComponent.JoinController | Source/AdhocPlugin/Private/AdhocGameModeComponent.cpp:1281-1313 | The controller takes the spawn transform when the response has one, the response's faction index narrowed to `int32`, and the token |
| GameModeLegacy.GameModeComponent.JoinPawn | Source/AdhocPlugin/Private/AdhocGameModeComponent.cpp:1315-1324 | A pawn the player controls takes the response's faction index narrowed to `int32`, broadcasting only when it changes; its name and identity are untouched |
| GameModeLegacy.GameModeComponent.SetActiveAreas | Source/AdhocPlugin/Private/AdhocGameModeComponent.cpp:1165-1180 | Replaces the active set only when the region matches |
| GameModeLegacy.GameModeComponent.OnServerUpdatedEvent | Source/AdhocPlugin/Private/AdhocGameModeComponent.cpp:1130-1163 | The record the as-written lookup finds gets `ApplyStatusUpdate`; otherwise one such record is appended. The active areas follow the event only for this server and region |
| GameModeLegacy.GameModeComponent.NavigateTarget | Source/AdhocPlugin/Private/AdhocGameModeComponent.cpp:1382-1428 | Rejected on the same conditions as the newer revision; otherwise carries UserID (as `int32`) iff not -1 and Token iff non-empty, never a FactionID |
| GameModeLegacy.GameModeComponent.OnNavigateResponse | Source/AdhocPlugin/Private/AdhocGameModeComponent.cpp:1382-1437 | The URL assembled by appends is exactly `ReconnectURL` of the target, or there is no travel |
| GameModeLegacy.GameModeComponent.NavigateCarriesIdentity | Source/AdhocPlugin/Private/AdhocGameModeComponent.cpp:1412-1428 | The destination reads back the WebSocket URL, the token, and the user ID under the `UserId` key the older `Login` asks for, which matches the written `UserID` ignoring case; no faction (-1) |

## Left out

- HTTP and STOMP transport (connecting, subscribing, sending, request creation, basic-auth headers, the manager host URLs): responses and events are input datatypes, and a sent STOMP message is appended to a log.
- JSON reading and writing: only which fields are present and their values are modelled.
- Kicking, travelling, restarting and destroying players, and process shutdown: these are returned as outcome tags. `InEditor` checks are not modelled.
- Timers (periodic pawn reporting, the bot join on the next tick): scheduling and I/O.
- Floating-point geometry: locations, sizes and rotations are carried as opaque reals. The bounding-box intersection test is passed in as a boolean per candidate area.
- The random faction pick in `Login`, `FMath::RandRange`: a nondeterministic choice within range, 0 when there are no factions.
- Command-line and login-option parsing: `CommandLineID` takes the parsed value or its absence, and `Login` takes the `UserId` and `Token` options as parameters.
- Replication and delegates: modelled as ghost broadcast counters only.
- Structures, emissions and other optional extra features: an optional extension outside this core.
- The older revision talks to actors through `IAdhocObjectiveInterface` and `IAdhocPlayerControllerInterface`, whose implementations are not part of this model. Its `ObjectiveTaken`/`OnObjectiveTakenEvent` are left out for that reason. Its objective discovery (`InitializeComponent`, `BeginPlay`) and its controller calls (`Login`, `OnUserJoinResponse`) are modelled with the newer `ObjectiveComp.ObjectiveComponent` and `Player.ControllerComponent`. Their setters' broadcast-on-change behaviour is thus assumed for the older revision, whose interface implementations may not have it.
- The older revision's `PlayerEnterArea` is the same decision as the newer one's, which `GameMode.GameModeComponent.PlayerEnterArea` models.
- The older revision writes a server `Name` and `Status`, fields the server record header does not declare: they are not stored.
- `AdhocFactionState.h` is not part of this model: a faction's ID is assumed to default to -1 where the older revision leaves it unset.
- `GetAreaIndexSafe` is declared by the objective component, but its body is not part of this model: `ObjectiveComp.ObjectiveComponent.AreaIndexSafe` takes it to be the containing area's index, or -1 without one.
- A controller faction index outside the faction list is excluded by the preconditions of `GameMode.GameModeComponent.JoinRequestBody`, `JoinFactionRoundTrip`, `NavigateTarget`, `OnNavigateResponse`, `NavigateCarriesIdentity` and `NavigateKeepsFaction`. The source reads `GetFaction(FactionIndex)` unchecked there, so such an index is an engine range-check failure, not a handled case.
- The engine's option parsing is modelled only as far as the plugin relies on it. An option written without `=` is not matched (the engine matches it with an empty value, which `GetIntOption` treats as missing either way). A value that is not a whole decimal reads as 0, where `FCString::Atoi` would read a leading number.
- A `TSet` is modelled as a duplicate-free sequence in insertion order; its hashing order is not modelled.
- GameModeLegacy.GameModeComponent.BeginPlay: requires the actors' objective indexes to be distinct, as discovery leaves them. With duplicates, later actors would overwrite earlier ones' area index, and this is not stated.
- GameModeLegacy.GameModeComponent.Login: the faction pick is any value in range; the distribution of `RandRange` is not modelled.
- GameMode.GameModeComponent.OnUserJoinResponse: the delegate broadcasts for join success and failure are not counted.

## Findings

| source | as written | input that shows it | evidently intended | confidence | as-written member | corrected member |
|---|---|---|---|---|---|---|
| Source/AdhocPlugin/Private/Game/AdhocGameStateComponent.cpp:157 | `FindServerByID` compares each record's ID with the member `ServerID`, not with its argument, so `FindOrInsertServerByID` returns this node's own record whenever one exists | This node is server 1 and holds its own record; a `ServerUpdated` event for server 2 arrives. The own record is overwritten with server 2's data, and no record for server 1 remains | Compare with the argument, so that the event updates or inserts server 2's record and leaves server 1's alone | not executed | GameMode.OwnRecordOverwrittenExample | GameMode.OwnRecordKeptExample |
