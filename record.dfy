/** The editable record held by the page: the `#characterInfo` inputs and
    the six section containers, each of which the page updates in place.
    Every method is proved to follow the matching function of module Sheets. */
module Records {
  import opened Schema
  import opened Entries
  import opened Documents
  import opened Sheets

  class Record {
    /** The values of the `#characterInfo` inputs, in form order. */
    var info: seq<string>
    /** The entries of the six section containers, in display order. */
    var attacks: seq<Entry>
    var skills: seq<Entry>
    var achievements: seq<Entry>
    var inventory: seq<Entry>
    var playerNotes: seq<Entry>
    var gmNotes: seq<Entry>

    /** The record's current value. */
    function Snapshot(): Sheet
      reads this
    {
      Sheet(info, attacks, skills, achievements, inventory, playerNotes, gmNotes)
    }

    /** Every entry on the page has its section's arity. */
    ghost predicate Valid()
      reads this
    {
      WellFormed(Snapshot())
    }

    /** The page as loaded: `fieldCount` empty scalar inputs and six empty
        section containers. */
    constructor (fieldCount: nat)
      ensures Valid()
      ensures Snapshot() == Sheet(Blanks(fieldCount), [], [], [], [], [], [])
    {
      info := Blanks(fieldCount);
      attacks, skills, achievements := [], [], [];
      inventory, playerNotes, gmNotes := [], [], [];
    }

    /** Replace the children of section `k`'s container. */
    method SetSection(k: SectionKind, sec: seq<Entry>)
      modifies this
      ensures Snapshot() == old(Snapshot()).With(k, sec)
    {
      match k
      case Attacks => attacks := sec;
      case Skills => skills := sec;
      case Achievements => achievements := sec;
      case Inventory => inventory := sec;
      case PlayerNotes => playerNotes := sec;
      case GMNotes => gmNotes := sec;
    }

    /** `container.appendChild(createEntry(labels, values))` for section `k`. */
    method Add(k: SectionKind, values: seq<string>)
      requires Valid()
      modifies this
      ensures Valid()
      ensures Snapshot() == AddEntry(old(Snapshot()), k, values)
    {
      var e := CreateEntry(Labels(k), values);
      SetSection(k, Snapshot().Section(k) + [e]);
      AddEntryKeepsWellFormed(old(Snapshot()), k, values);
    }

    method AddAttack(values: seq<string>)
      requires Valid()
      modifies this
      ensures Valid()
      ensures Snapshot() == AddEntry(old(Snapshot()), Attacks, values)
    {
      Add(Attacks, values);
    }

    method AddSkill(values: seq<string>)
      requires Valid()
      modifies this
      ensures Valid()
      ensures Snapshot() == AddEntry(old(Snapshot()), Skills, values)
    {
      Add(Skills, values);
    }

    method AddAchievement(values: seq<string>)
      requires Valid()
      modifies this
      ensures Valid()
      ensures Snapshot() == AddEntry(old(Snapshot()), Achievements, values)
    {
      Add(Achievements, values);
    }

    method AddItem(values: seq<string>)
      requires Valid()
      modifies this
      ensures Valid()
      ensures Snapshot() == AddEntry(old(Snapshot()), Inventory, values)
    {
      Add(Inventory, values);
    }

    method AddPlayerNote(values: seq<string>)
      requires Valid()
      modifies this
      ensures Valid()
      ensures Snapshot() == AddEntry(old(Snapshot()), PlayerNotes, values)
    {
      Add(PlayerNotes, values);
    }

    method AddGMNote(values: seq<string>)
      requires Valid()
      modifies this
      ensures Valid()
      ensures Snapshot() == AddEntry(old(Snapshot()), GMNotes, values)
    {
      Add(GMNotes, values);
    }

    /** The remove button of entry `i` of section `k`; `confirmed` is the
        answer the confirmation dialog gave. */
    method Remove(k: SectionKind, i: nat, confirmed: bool)
      requires Valid()
      requires i < |Snapshot().Section(k)|
      modifies this
      ensures Valid()
      ensures !confirmed ==> unchanged(this)
      ensures Snapshot() == RemoveEntry(old(Snapshot()), k, i, confirmed)
    {
      RemoveEntryKeepsWellFormed(Snapshot(), k, i, confirmed);
      if confirmed {
        SetSection(k, Removed(Snapshot().Section(k), i));
      }
    }

    /** `ensure(id, addFn)`: one blank entry if the container has no children. */
    method Ensure(k: SectionKind)
      requires Valid()
      modifies this
      ensures Valid()
      ensures Snapshot() == EnsureOne(old(Snapshot()), k)
    {
      if |Snapshot().Section(k)| == 0 {
        Add(k, []);
      }
    }

    /** `ensureDefaultRows()`. */
    method EnsureDefaultRows()
      requires Valid()
      modifies this
      ensures Valid() && AllNonEmpty(Snapshot())
      ensures Snapshot() == EnsureDefaults(old(Snapshot()))
    {
      Ensure(Attacks);
      Ensure(Skills);
      Ensure(Achievements);
      Ensure(Inventory);
      Ensure(PlayerNotes);
      Ensure(GMNotes);
      EnsureInSteps(old(Snapshot()));
      EnsureDefaultsPolicy(old(Snapshot()));
    }

    /** `launchPlayerForm()`: showing the form applies the default-row policy. */
    method LaunchPlayerForm()
      requires Valid()
      modifies this
      ensures Valid() && AllNonEmpty(Snapshot())
      ensures Snapshot() == EnsureDefaults(old(Snapshot()))
    {
      EnsureDefaultRows();
    }

    /** Set input `i` to `characterInfo?.[i] || ""`, for every input. */
    method RestoreInfo(characterInfo: Option<seq<string>>)
      requires Valid()
      modifies this
      ensures Valid()
      ensures Snapshot() == old(Snapshot()).(info := Pad(|old(info)|, OrEmpty(characterInfo)))
    {
      var values := OrEmpty(characterInfo);
      var i := 0;
      while i < |info|
        invariant i <= |info| == |old(info)|
        invariant forall j :: 0 <= j < i ==> info[j] == FieldValue(values, j)
        invariant Snapshot() == old(Snapshot()).(info := info)
      {
        info := info[i := FieldValue(values, i)];
        i := i + 1;
      }
      assert forall k :: Snapshot().Section(k) == old(Snapshot()).Section(k);
    }

    /** `clearAndRestore(id, addFn, lists)`: empty the container, then add
        one entry per value list, in order. */
    method ClearAndRestore(k: SectionKind, lists: Option<seq<seq<string>>>)
      requires Valid()
      modifies this
      ensures Valid()
      ensures Snapshot() == old(Snapshot()).With(k, Rebuild(k, OrEmpty(lists)))
    {
      SetSection(k, []);
      var vs := OrEmpty(lists);
      for j := 0 to |vs|
        invariant Valid()
        invariant Snapshot() == old(Snapshot()).With(k, Rebuild(k, vs[..j]))
      {
        Add(k, vs[j]);
        RebuildPrefix(k, vs, j);
        WithTwice(old(Snapshot()), k, Rebuild(k, vs[..j]), Rebuild(k, vs[..j + 1]));
      }
      assert vs[..|vs|] == vs;
    }

    /** `restoreCharacterData(d)`: scalars, then every section cleared and
        rebuilt in the fixed order, then the default-row policy. */
    method Restore(d: Document)
      requires Valid()
      modifies this
      ensures Valid() && AllNonEmpty(Snapshot())
      ensures Snapshot() == Restored(|old(info)|, d)
    {
      RestoreInfo(d.characterInfo);
      ClearAndRestore(Attacks, d.attacks);
      ClearAndRestore(Skills, d.skills);
      ClearAndRestore(Achievements, d.achievements);
      ClearAndRestore(Inventory, d.inventory);
      ClearAndRestore(PlayerNotes, d.playerNotes);
      ClearAndRestore(GMNotes, d.gmNotes);
      LoadedInSteps(old(Snapshot()), d);
      EnsureDefaultRows();
    }
  }

  /** Saving a record and loading the saved document back gives the same
      record, with a blank row in each section that was empty. */
  method SaveAndLoad(r: Record)
    requires r.Valid()
    modifies r
    ensures r.Valid() && AllNonEmpty(r.Snapshot())
    ensures r.Snapshot() == EnsureDefaults(old(r.Snapshot()))
  {
    var doc := Collect(r.Snapshot());
    r.Restore(doc);
    RoundTrip(old(r.Snapshot()));
  }
}
