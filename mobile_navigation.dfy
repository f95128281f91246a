/**
 * The bottom navigation bar of client/src/components/layout/MobileNavigation.jsx:
 * the active page, the "more" panel, and the two menus, compared with the
 * pages of the desktop sidebar (client/src/components/layout/Sidebar.jsx).
 */
module MobileNavigation {

  const More := "Más"

  /** `mainMenuItems`, by name. */
  const MainItems: seq<string> := ["Dashboard", "Diario del Bebé", "Galería", "Tareas", More]

  /** `moreItems`, by name. */
  const MoreItems: seq<string> :=
    ["Videos", "Diario Personal", "Calendario", "Registros Médicos", "Citas", "Perfil del Bebé", "Configuraciones"]

  /** The pages of the desktop sidebar, by name. */
  const SidebarPages: seq<string> :=
    ["Dashboard", "Diario del Bebé", "Galería", "Videos", "Diario Personal", "Tareas", "Calendario",
     "Registros Médicos", "Citas", "Perfil del Bebé", "Configuraciones"]

  /** A page the bottom bar offers directly: a main item other than `Más`. */
  predicate InMain(page: string)
  {
    page in MainItems && page != More
  }

  /** The main items other than `Más` and the more items share no page. */
  lemma MenusDisjoint(page: string)
    ensures !(InMain(page) && page in MoreItems)
  {
  }

  /** Together the two menus name exactly the sidebar's eleven pages. */
  lemma MenusCoverSidebar(page: string)
    ensures InMain(page) || page in MoreItems <==> page in SidebarPages
    ensures |SidebarPages| == 11
  {
  }

  /** The navigation state: the page shown (owned by the parent) and whether the "more" panel is open. */
  class Navigator {
    var activePage: string
    var showMore: bool

    constructor (activePage: string)
      ensures this.activePage == activePage && !showMore
    {
      this.activePage := activePage;
      showMore := false;
    }

    /** `handleItemClick`: `Más` opens or closes the panel; any other item becomes the page and closes it. */
    method HandleItemClick(itemName: string)
      modifies this
      ensures itemName == More ==> showMore == !old(showMore) && activePage == old(activePage)
      ensures itemName != More ==> activePage == itemName && !showMore
      ensures (activePage, showMore) == AfterClick(old(activePage), old(showMore), itemName)
    {
      if itemName == More {
        showMore := !showMore;
      } else {
        activePage := itemName;
        showMore := false;
      }
    }

    /** A click on the overlay closes the panel and keeps the page. */
    method ClickOverlay()
      modifies this
      ensures !showMore && activePage == old(activePage)
    {
      showMore := false;
    }
  }

  /** The state after a click, as a value: the partner of `HandleItemClick`. */
  function AfterClick(activePage: string, showMore: bool, itemName: string): (r: (string, bool))
    ensures itemName != More ==> r.0 == itemName && !r.1
    ensures itemName == More ==> r.0 == activePage
  {
    if itemName == More then (activePage, !showMore) else (itemName, false)
  }

  /** Two clicks on `Más` leave everything as it was; a page click is idempotent. */
  lemma ClickFacts(activePage: string, showMore: bool, itemName: string)
    ensures var (p, s) := AfterClick(activePage, showMore, More);
            AfterClick(p, s, More) == (activePage, showMore)
    ensures var (p, s) := AfterClick(activePage, showMore, itemName);
            itemName != More ==> AfterClick(p, s, itemName) == (p, s)
  {
  }
}
