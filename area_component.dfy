/**
 * The component an area volume carries: a designer-given name and the index
 * the game mode assigns during initialisation.
 */
module Area {
  class AreaComponent {
    var FriendlyName: string
    var AreaIndex: int

    /** `FriendlyName` is an editable property whose default is "Area"; the index starts unassigned. */
    constructor (friendlyName: string)
      ensures FriendlyName == friendlyName
      ensures AreaIndex == -1
    {
      FriendlyName := friendlyName;
      AreaIndex := -1;
    }

    method SetAreaIndex(index: int)
      modifies this`AreaIndex
      ensures AreaIndex == index
    {
      AreaIndex := index;
    }
  }
}
