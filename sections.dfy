/**
 * The four section ids the navigation offers (`navItems` in the navigation bar).
 * The scene itself receives the section as a plain string, so the enum below is
 * the reference against which the string-keyed lookups are checked.
 */
module Sections {

  datatype Option<T> = None | Some(value: T)

  datatype Section = Home | Projects | LostFocus | Contact

  /** The id a navigation button passes to `onNavigate`. */
  function Id(s: Section): string
  {
    match s
    case Home => "home"
    case Projects => "projects"
    case LostFocus => "lostfocus"
    case Contact => "contact"
  }

  /** Recognises a section id; every other string is not a section. */
  function Parse(name: string): (r: Option<Section>)
    ensures r.Some? ==> Id(r.value) == name
    ensures r.None? ==> forall s: Section :: Id(s) != name
  {
    if name == "home" then Some(Home)
    else if name == "projects" then Some(Projects)
    else if name == "lostfocus" then Some(LostFocus)
    else if name == "contact" then Some(Contact)
    else None
  }

  /** Distinct sections have distinct ids, and each id parses back to its section. */
  lemma ParseId(s: Section)
    ensures Parse(Id(s)) == Some(s)
    ensures forall s': Section :: Id(s') == Id(s) ==> s' == s
  {
  }

  /** The ids, in the order the navigation lists them. */
  const NavIds: seq<string> := ["home", "projects", "lostfocus", "contact"]

  lemma NavIdsAreSections()
    ensures forall i :: 0 <= i < |NavIds| ==> Parse(NavIds[i]).Some?
    ensures forall s: Section :: Id(s) in NavIds
  {
  }
}
