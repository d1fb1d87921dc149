/** The six repeated sections of a character sheet and the fixed, ordered
    field schema of each (the label lists passed to `createEntry` by the
    `addX` functions). The schemas never change at run time. */
module Schema {

  /** One kind of repeated section; each has its own container on the sheet. */
  datatype SectionKind = Attacks | Skills | Achievements | Inventory | PlayerNotes | GMNotes

  /** The field labels of a section, in display (and serialization) order.
      Every section has at least one field and no label repeats within a section. */
  function Labels(k: SectionKind): (r: seq<string>)
    ensures |r| >= 1
    ensures forall i, j :: 0 <= i < j < |r| ==> r[i] != r[j]
  {
    match k
    case Attacks      => ["Attack Name", "Type", "Ability Used", "Attack Bonus", "Damage"]
    case Skills       => ["Skill Name", "Base Ability", "Level", "Benefit"]
    case Achievements => ["Achievement Name", "How Earned", "Benefits"]
    case Inventory    => ["Item Name", "Type", "Benefits / Effects"]
    case PlayerNotes  => ["Note"]
    case GMNotes      => ["Note"]
  }

  /** The number of fields of every entry of section `k`. */
  function Arity(k: SectionKind): (n: nat)
    ensures n >= 1
    ensures n == match k
                 case Attacks => 5
                 case Skills => 4
                 case Achievements => 3
                 case Inventory => 3
                 case PlayerNotes => 1
                 case GMNotes => 1
  {
    |Labels(k)|
  }
}
