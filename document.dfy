/** The saved document: the object `collectCharacterData` builds and
    `restoreCharacterData` reads. Every key may be absent in a loaded file. */
module Documents {
  import opened Schema

  datatype Option<+T> = None | Some(value: T)

  /** `x || []` for a list-valued key: an absent key reads as the empty list. */
  function OrEmpty<T>(o: Option<seq<T>>): (r: seq<T>)
    ensures o.Some? ==> r == o.value
    ensures o.None? ==> r == []
  {
    match o
    case Some(v) => v
    case None => []
  }

  /** `{ characterInfo, attacks, skills, achievements, inventory, playerNotes, gmNotes }`:
      the scalars as a positional list and each section as a list of value lists. */
  datatype Document = Document(
    characterInfo: Option<seq<string>>,
    attacks: Option<seq<seq<string>>>,
    skills: Option<seq<seq<string>>>,
    achievements: Option<seq<seq<string>>>,
    inventory: Option<seq<seq<string>>>,
    playerNotes: Option<seq<seq<string>>>,
    gmNotes: Option<seq<seq<string>>>)
  {
    /** The value under the key of section `k`. */
    function Get(k: SectionKind): Option<seq<seq<string>>>
    {
      match k
      case Attacks => attacks
      case Skills => skills
      case Achievements => achievements
      case Inventory => inventory
      case PlayerNotes => playerNotes
      case GMNotes => gmNotes
    }
  }
}
