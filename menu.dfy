/**
 * The pause menu (pkg/game/menu.go): whether it is open and which of its four
 * options is selected. Options are plain integers, as in the game, so a selection
 * outside `MenuContinue..MenuQuit` is representable.
 */
module Menu {

  const MenuContinue: int := 0
  const MenuExitLevel: int := 1
  const MenuRestart: int := 2
  const MenuQuit: int := 3

  predicate InRange(option: int) {
    MenuContinue <= option <= MenuQuit
  }

  /** The selection after moving up, wrapping from the first option to the last. */
  function Up(option: int): int {
    if option > MenuContinue then option - 1 else MenuQuit
  }

  /** The selection after moving down, wrapping from the last option to the first. */
  function Down(option: int): int {
    if option < MenuQuit then option + 1 else MenuContinue
  }

  /** Moving up in the hub, where "Exit Level" is not offered and is skipped. */
  function UpInHub(option: int): int {
    if option > MenuContinue then
      var o := option - 1;
      if o == MenuExitLevel then o - 1 else o
    else MenuQuit
  }

  /** Moving down in the hub, skipping "Exit Level". */
  function DownInHub(option: int): int {
    if option < MenuQuit then
      var o := option + 1;
      if o == MenuExitLevel then o + 1 else o
    else MenuContinue
  }

  class MenuState {
    var isOpen: bool
    var selectedOption: int
    var totalOptions: int

    constructor ()
      ensures !isOpen && selectedOption == MenuContinue && totalOptions == 4
    {
      isOpen := false;
      selectedOption := MenuContinue;
      totalOptions := 4;
    }

    /** Opening resets the selection to "Continue"; closing keeps it. */
    method ToggleMenu()
      modifies this`isOpen, this`selectedOption
      ensures isOpen == !old(isOpen)
      ensures selectedOption == if isOpen then MenuContinue else old(selectedOption)
    {
      isOpen := !isOpen;
      if isOpen {
        selectedOption := MenuContinue;
      }
    }

    method OpenMenu()
      modifies this`isOpen, this`selectedOption
      ensures isOpen && selectedOption == MenuContinue
    {
      isOpen := true;
      selectedOption := MenuContinue;
    }

    method CloseMenu()
      modifies this`isOpen
      ensures !isOpen
    {
      isOpen := false;
    }

    method MoveUp()
      modifies this`selectedOption
      ensures selectedOption == Up(old(selectedOption))
    {
      if selectedOption > MenuContinue {
        selectedOption := selectedOption - 1;
      } else {
        selectedOption := MenuQuit;
      }
    }

    method MoveUpInHub()
      modifies this`selectedOption
      ensures selectedOption == UpInHub(old(selectedOption))
    {
      if selectedOption > MenuContinue {
        selectedOption := selectedOption - 1;
        if selectedOption == MenuExitLevel {
          selectedOption := selectedOption - 1;
        }
      } else {
        selectedOption := MenuQuit;
      }
    }

    method MoveDown()
      modifies this`selectedOption
      ensures selectedOption == Down(old(selectedOption))
    {
      if selectedOption < MenuQuit {
        selectedOption := selectedOption + 1;
      } else {
        selectedOption := MenuContinue;
      }
    }

    method MoveDownInHub()
      modifies this`selectedOption
      ensures selectedOption == DownInHub(old(selectedOption))
    {
      if selectedOption < MenuQuit {
        selectedOption := selectedOption + 1;
        if selectedOption == MenuExitLevel {
          selectedOption := selectedOption + 1;
        }
      } else {
        selectedOption := MenuContinue;
      }
    }
  }

  /** Both moves keep an in-range selection in range and wrap at the ends. */
  lemma MovesStayInRange(option: int)
    requires InRange(option)
    ensures InRange(Up(option)) && InRange(Down(option))
    ensures Up(MenuContinue) == MenuQuit && Down(MenuQuit) == MenuContinue
  {
  }

  /** Moving up undoes moving down and the other way round, and four moves down come back. */
  lemma UpUndoesDown(option: int)
    requires InRange(option)
    ensures Up(Down(option)) == option && Down(Up(option)) == option
    ensures Down(Down(Down(Down(option)))) == option
  {
  }

  /** In the hub the selection never lands on "Exit Level". */
  lemma HubMovesSkipExitLevel(option: int)
    requires InRange(option)
    ensures InRange(UpInHub(option)) && UpInHub(option) != MenuExitLevel
    ensures InRange(DownInHub(option)) && DownInHub(option) != MenuExitLevel
  {
  }

  /** In the hub, moving down cycles Continue, Restart, Quit, and moving up is its inverse on those three. */
  lemma HubMovesCycle(option: int)
    requires option == MenuContinue || option == MenuRestart || option == MenuQuit
    ensures DownInHub(MenuContinue) == MenuRestart && DownInHub(MenuRestart) == MenuQuit && DownInHub(MenuQuit) == MenuContinue
    ensures UpInHub(DownInHub(option)) == option && DownInHub(UpInHub(option)) == option
  {
  }

  /** The label of an option; every option outside the four has the empty label. */
  function GetOptionText(option: int): (text: string)
    ensures text != "" <==> InRange(option)
  {
    if option == MenuContinue then "Continue"
    else if option == MenuRestart then "Restart"
    else if option == MenuExitLevel then "Exit Level"
    else if option == MenuQuit then "Quit"
    else ""
  }

  /** No two options share a label. */
  lemma OptionTextsDistinct(a: int, b: int)
    requires InRange(a) && InRange(b) && a != b
    ensures GetOptionText(a) != GetOptionText(b)
  {
  }
}
