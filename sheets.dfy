/** The character record as a value, and the meaning of every operation on
    it: adding, removing, the default-row policy, collecting the saved
    document and restoring from one. The `Record` class in module Records
    is proved to follow these functions. */
module Sheets {
  import opened Schema
  import opened Entries
  import opened Documents

  /** The top-level scalar fields, in form order, plus the six sections,
      each an ordered sequence of entries (insertion order = display order). */
  datatype Sheet = Sheet(
    info: seq<string>,
    attacks: seq<Entry>,
    skills: seq<Entry>,
    achievements: seq<Entry>,
    inventory: seq<Entry>,
    playerNotes: seq<Entry>,
    gmNotes: seq<Entry>)
  {
    /** The entries of section `k`. */
    function Section(k: SectionKind): seq<Entry>
    {
      match k
      case Attacks => attacks
      case Skills => skills
      case Achievements => achievements
      case Inventory => inventory
      case PlayerNotes => playerNotes
      case GMNotes => gmNotes
    }

    /** This sheet with section `k` replaced by `sec`. */
    function With(k: SectionKind, sec: seq<Entry>): (t: Sheet)
      ensures t.info == info && t.Section(k) == sec
      ensures forall j :: j != k ==> t.Section(j) == Section(j)
    {
      match k
      case Attacks => this.(attacks := sec)
      case Skills => this.(skills := sec)
      case Achievements => this.(achievements := sec)
      case Inventory => this.(inventory := sec)
      case PlayerNotes => this.(playerNotes := sec)
      case GMNotes => this.(gmNotes := sec)
    }
  }

  /** Replacing the same section twice keeps only the second replacement. */
  lemma WithTwice(s: Sheet, k: SectionKind, a: seq<Entry>, b: seq<Entry>)
    ensures s.With(k, a).With(k, b) == s.With(k, b)
  {
  }

  /** Two sheets with the same scalars and the same six sections are equal. */
  lemma SheetExtensionality(a: Sheet, b: Sheet)
    requires a.info == b.info
    requires forall k :: a.Section(k) == b.Section(k)
    ensures a == b
  {
    assert a.Section(Attacks) == b.Section(Attacks);
    assert a.Section(Skills) == b.Section(Skills);
    assert a.Section(Achievements) == b.Section(Achievements);
    assert a.Section(Inventory) == b.Section(Inventory);
    assert a.Section(PlayerNotes) == b.Section(PlayerNotes);
    assert a.Section(GMNotes) == b.Section(GMNotes);
  }

  /** Every entry has exactly one value per field of its schema. */
  ghost predicate WellFormed(s: Sheet)
  {
    forall k, i | 0 <= i < |s.Section(k)| :: |s.Section(k)[i]| == Arity(k)
  }

  /** No section is empty. */
  predicate AllNonEmpty(s: Sheet)
  {
    forall k :: s.Section(k) != []
  }

  /** The entry the default-row policy adds: `addFn([])`. */
  function Blank(k: SectionKind): (e: Entry)
    ensures |e| == Arity(k) && forall i :: 0 <= i < |e| ==> e[i] == ""
  {
    Pad(Arity(k), [])
  }

  // ---------------------------------------------------------------- adding

  /** `addX(values)`: append a new entry, built from `values` by position,
      at the end of section `k`. */
  function AddEntry(s: Sheet, k: SectionKind, values: seq<string>): (t: Sheet)
    ensures t.info == s.info
    ensures |t.Section(k)| == |s.Section(k)| + 1
    ensures t.Section(k)[..|s.Section(k)|] == s.Section(k)
    ensures t.Section(k)[|s.Section(k)|] == Pad(Arity(k), values)
    ensures forall j :: j != k ==> t.Section(j) == s.Section(j)
  {
    s.With(k, s.Section(k) + [Pad(Arity(k), values)])
  }

  /** The entry that adding appends has the section's arity, so adding
      keeps every entry at its arity. */
  lemma AddEntryKeepsWellFormed(s: Sheet, k: SectionKind, values: seq<string>)
    requires WellFormed(s)
    ensures WellFormed(AddEntry(s, k, values))
  {
  }

  // -------------------------------------------------------------- removing

  /** Section `sec` without its entry at position `i`. */
  function Removed(sec: seq<Entry>, i: nat): (r: seq<Entry>)
    requires i < |sec|
    ensures |r| == |sec| - 1
    ensures forall j :: 0 <= j < i ==> r[j] == sec[j]
    ensures forall j :: i <= j < |r| ==> r[j] == sec[j + 1]
  {
    sec[..i] + sec[i + 1..]
  }

  /** The remove button of entry `i` of section `k`, with the user's answer
      to the confirmation dialog. */
  function RemoveEntry(s: Sheet, k: SectionKind, i: nat, confirmed: bool): (t: Sheet)
    requires i < |s.Section(k)|
    ensures !confirmed ==> t == s
    ensures confirmed ==> t.info == s.info && t.Section(k) == s.Section(k)[..i] + s.Section(k)[i + 1..]
    ensures confirmed ==> forall j :: j != k ==> t.Section(j) == s.Section(j)
  {
    if confirmed then s.With(k, Removed(s.Section(k), i)) else s
  }

  /** Removing keeps every remaining entry at its arity. The section may
      become empty: removal does not re-add a default row. */
  lemma RemoveEntryKeepsWellFormed(s: Sheet, k: SectionKind, i: nat, confirmed: bool)
    requires i < |s.Section(k)|
    requires WellFormed(s)
    ensures WellFormed(RemoveEntry(s, k, i, confirmed))
  {
  }

  // ------------------------------------------------------ default-row policy

  /** `ensure(id, addFn)`: add one blank entry to section `k` if it is empty. */
  function EnsureOne(s: Sheet, k: SectionKind): (t: Sheet)
    ensures t.info == s.info
    ensures t.Section(k) == DefaultSection(k, s.Section(k))
    ensures forall j :: j != k ==> t.Section(j) == s.Section(j)
  {
    if s.Section(k) == [] then AddEntry(s, k, []) else s
  }

  /** What the policy makes of one section: an empty one becomes one blank entry. */
  function DefaultSection(k: SectionKind, sec: seq<Entry>): (r: seq<Entry>)
    ensures r != []
    ensures sec != [] ==> r == sec
    ensures sec == [] ==> r == [Blank(k)]
  {
    if sec == [] then [Blank(k)] else sec
  }

  /** The default-row policy, section by section. */
  function EnsureDefaults(s: Sheet): (t: Sheet)
    ensures t.info == s.info
    ensures forall k :: t.Section(k) == DefaultSection(k, s.Section(k))
  {
    Sheet(s.info,
          DefaultSection(Attacks, s.attacks),
          DefaultSection(Skills, s.skills),
          DefaultSection(Achievements, s.achievements),
          DefaultSection(Inventory, s.inventory),
          DefaultSection(PlayerNotes, s.playerNotes),
          DefaultSection(GMNotes, s.gmNotes))
  }

  /** `ensureDefaultRows()`: the six `ensure` calls, in their fixed order,
      apply the policy to every section. */
  lemma EnsureInSteps(s: Sheet)
    ensures EnsureOne(EnsureOne(EnsureOne(EnsureOne(EnsureOne(EnsureOne(
              s, Attacks), Skills), Achievements), Inventory), PlayerNotes), GMNotes)
         == EnsureDefaults(s)
  {
    var s1 := EnsureOne(s, Attacks);
    var s2 := EnsureOne(s1, Skills);
    var s3 := EnsureOne(s2, Achievements);
    var s4 := EnsureOne(s3, Inventory);
    var s5 := EnsureOne(s4, PlayerNotes);
    var s6 := EnsureOne(s5, GMNotes);
    SheetExtensionality(s6, EnsureDefaults(s));
  }

  /** After the policy every section has an entry; a non-empty section is
      untouched; an empty one holds exactly one entry whose fields are all "". */
  lemma EnsureDefaultsPolicy(s: Sheet)
    ensures AllNonEmpty(EnsureDefaults(s))
    ensures EnsureDefaults(s).info == s.info
    ensures forall k :: s.Section(k) != [] ==> EnsureDefaults(s).Section(k) == s.Section(k)
    ensures forall k :: s.Section(k) == [] ==> EnsureDefaults(s).Section(k) == [Blank(k)]
  {
  }

  /** A record whose sections are all non-empty is left exactly as it is. */
  lemma EnsureDefaultsFixesSettled(s: Sheet)
    requires AllNonEmpty(s)
    ensures EnsureDefaults(s) == s
  {
    EnsureDefaultsPolicy(s);
    SheetExtensionality(EnsureDefaults(s), s);
  }

  /** The policy is idempotent: a second run changes nothing. */
  lemma EnsureDefaultsIdempotent(s: Sheet)
    ensures EnsureDefaults(EnsureDefaults(s)) == EnsureDefaults(s)
  {
  }

  /** The blank entries the policy adds have the schema's arity. */
  lemma EnsureDefaultsKeepsWellFormed(s: Sheet)
    requires WellFormed(s)
    ensures WellFormed(EnsureDefaults(s))
  {
    EnsureDefaultsPolicy(s);
  }

  // ------------------------------------------------------------ collecting

  /** `collectCharacterData()`: the scalars in form order and, under every
      section's key, its entries in display order as value lists. */
  function Collect(s: Sheet): (d: Document)
    ensures d.characterInfo == Some(s.info)
    ensures forall k :: d.Get(k) == Some(s.Section(k))
    ensures WellFormed(s) ==> forall k, i | 0 <= i < |OrEmpty(d.Get(k))| :: |OrEmpty(d.Get(k))[i]| == Arity(k)
  {
    Document(Some(s.info), Some(s.attacks), Some(s.skills), Some(s.achievements),
             Some(s.inventory), Some(s.playerNotes), Some(s.gmNotes))
  }

  // ------------------------------------------------------------- restoring

  /** `(values || []).forEach(v => addFn(v))` on a cleared section: one new
      entry per value list, in order. */
  function Rebuild(k: SectionKind, lists: seq<seq<string>>): (r: seq<Entry>)
    ensures |r| == |lists|
    ensures forall i :: 0 <= i < |r| ==> |r[i]| == Arity(k)
  {
    if lists == [] then [] else [Pad(Arity(k), lists[0])] + Rebuild(k, lists[1..])
  }

  /** Rebuilding one more list appends one more entry (the `forEach` step). */
  lemma {:induction false} RebuildAppend(k: SectionKind, lists: seq<seq<string>>, v: seq<string>)
    ensures Rebuild(k, lists + [v]) == Rebuild(k, lists) + [Pad(Arity(k), v)]
  {
    if lists == [] {
      assert lists + [v] == [v];
    } else {
      assert (lists + [v])[1..] == lists[1..] + [v];
      RebuildAppend(k, lists[1..], v);
    }
  }

  /** The `forEach` step on a prefix of the lists. */
  lemma RebuildPrefix(k: SectionKind, lists: seq<seq<string>>, j: nat)
    requires j < |lists|
    ensures Rebuild(k, lists[..j + 1]) == Rebuild(k, lists[..j]) + [Pad(Arity(k), lists[j])]
  {
    assert lists[..j + 1] == lists[..j] + [lists[j]];
    RebuildAppend(k, lists[..j], lists[j]);
  }

  /** Entry `i` of a rebuilt section is list `i` padded to the arity. */
  lemma {:induction false} RebuildAt(k: SectionKind, lists: seq<seq<string>>, i: nat)
    requires i < |lists|
    ensures Rebuild(k, lists)[i] == Pad(Arity(k), lists[i])
  {
    if i > 0 {
      RebuildAt(k, lists[1..], i - 1);
    }
  }

  /** Lists that already have the schema's arity come back unchanged. */
  lemma {:induction false} RebuildOfEntries(k: SectionKind, sec: seq<Entry>)
    requires forall i :: 0 <= i < |sec| ==> |sec[i]| == Arity(k)
    ensures Rebuild(k, sec) == sec
  {
    if sec != [] {
      PadExact(sec[0]);
      RebuildOfEntries(k, sec[1..]);
    }
  }

  /** The record right after every section is cleared and refilled, before
      the default-row policy: scalar `i` is `characterInfo[i] || ""`. */
  function Loaded(n: nat, d: Document): (t: Sheet)
    ensures t.info == Pad(n, OrEmpty(d.characterInfo))
    ensures forall k :: t.Section(k) == Rebuild(k, OrEmpty(d.Get(k)))
  {
    Sheet(Pad(n, OrEmpty(d.characterInfo)),
          Rebuild(Attacks, OrEmpty(d.attacks)),
          Rebuild(Skills, OrEmpty(d.skills)),
          Rebuild(Achievements, OrEmpty(d.achievements)),
          Rebuild(Inventory, OrEmpty(d.inventory)),
          Rebuild(PlayerNotes, OrEmpty(d.playerNotes)),
          Rebuild(GMNotes, OrEmpty(d.gmNotes)))
  }

  /** Clearing and refilling the sections one after the other, in the fixed
      order, yields the loaded record whatever the sections held before. */
  lemma LoadedInSteps(s: Sheet, d: Document)
    ensures s.(info := Pad(|s.info|, OrEmpty(d.characterInfo)))
             .With(Attacks, Rebuild(Attacks, OrEmpty(d.attacks)))
             .With(Skills, Rebuild(Skills, OrEmpty(d.skills)))
             .With(Achievements, Rebuild(Achievements, OrEmpty(d.achievements)))
             .With(Inventory, Rebuild(Inventory, OrEmpty(d.inventory)))
             .With(PlayerNotes, Rebuild(PlayerNotes, OrEmpty(d.playerNotes)))
             .With(GMNotes, Rebuild(GMNotes, OrEmpty(d.gmNotes)))
         == Loaded(|s.info|, d)
  {
  }

  /** `restoreCharacterData(d)` on a form with `n` scalar inputs. */
  function Restored(n: nat, d: Document): (t: Sheet)
    ensures |t.info| == n
    ensures AllNonEmpty(t)
  {
    EnsureDefaults(Loaded(n, d))
  }

  /** What restoring yields: `n` scalars taken by position from
      `characterInfo` (missing ones ""), each section rebuilt from its list in
      order (an absent key as the empty list), and no section left empty. */
  lemma RestoredSpec(n: nat, d: Document)
    ensures var t := Restored(n, d);
      && |t.info| == n
      && (forall i :: 0 <= i < n && d.characterInfo.Some? && i < |d.characterInfo.value| ==>
            t.info[i] == d.characterInfo.value[i])
      && (forall i :: 0 <= i < n && (d.characterInfo.None? || |d.characterInfo.value| <= i) ==>
            t.info[i] == "")
      && (forall k :: t.Section(k) == DefaultSection(k, Rebuild(k, OrEmpty(d.Get(k)))))
      && WellFormed(t)
      && AllNonEmpty(t)
  {
    EnsureDefaultsKeepsWellFormed(Loaded(n, d));
  }

  /** Round trip: restoring the collected document of a well-formed record
      gives the record back, except that empty sections gain a blank row. */
  lemma RoundTrip(s: Sheet)
    requires WellFormed(s)
    ensures Restored(|s.info|, Collect(s)) == EnsureDefaults(s)
  {
    var d := Collect(s);
    var l := Loaded(|s.info|, d);
    PadExact(s.info);
    forall k ensures l.Section(k) == s.Section(k) {
      RebuildOfEntries(k, s.Section(k));
    }
    SheetExtensionality(l, s);
    assert l == s;
    assert Restored(|s.info|, d) == EnsureDefaults(l);
  }

  /** A settled record (no empty section) survives save and load unchanged. */
  lemma RoundTripSettled(s: Sheet)
    requires WellFormed(s) && AllNonEmpty(s)
    ensures Restored(|s.info|, Collect(s)) == s
  {
    RoundTrip(s);
    EnsureDefaultsFixesSettled(s);
  }

  /** `addSkill(["X"])` pads the one value to the four skill fields. */
  lemma SkillPadded()
    ensures Pad(Arity(Skills), ["X"]) == ["X", "", "", ""]
  {
    var x := Pad(Arity(Skills), ["X"]);
    assert x[0] == "X" && x[1] == "" && x[2] == "" && x[3] == "";
  }

  /** The blank row of each section, written out. */
  lemma BlankRow(k: SectionKind)
    ensures Blank(k) == match k
                        case Attacks => ["", "", "", "", ""]
                        case Skills => ["", "", "", ""]
                        case Achievements => ["", "", ""]
                        case Inventory => ["", "", ""]
                        case PlayerNotes => [""]
                        case GMNotes => [""]
  {
    var b := Blank(k);
    assert b[0] == "";
    if Arity(k) > 1 { assert b[1] == "" && b[2] == ""; }
    if Arity(k) > 3 { assert b[3] == ""; }
    if Arity(k) > 4 { assert b[4] == ""; }
  }

  /** Loading `{ skills: [["X"]] }`: the one skill is padded to four fields,
      every other section gets its blank row and every scalar is "". */
  lemma PartialDocument(n: nat)
    ensures Restored(n, Document(None, None, Some([["X"]]), None, None, None, None))
         == Sheet(Blanks(n), [["", "", "", "", ""]], [["X", "", "", ""]], [["", "", ""]],
                  [["", "", ""]], [[""]], [[""]])
  {
    var d := Document(None, None, Some([["X"]]), None, None, None, None);
    var t := Restored(n, d);
    var expected := Sheet(Blanks(n), [["", "", "", "", ""]], [["X", "", "", ""]], [["", "", ""]],
                          [["", "", ""]], [[""]], [[""]]);
    RestoredSpec(n, d);
    assert Rebuild(Skills, [["X"]]) == [Pad(4, ["X"])];
    SkillPadded();
    forall k ensures t.Section(k) == expected.Section(k) {
      assert t.Section(k) == DefaultSection(k, Rebuild(k, OrEmpty(d.Get(k))));
      match k
      case Skills =>
      case _ => BlankRow(k);
    }
    SheetExtensionality(t, expected);
  }

  /** Launching the form on a record with no entries and then adding an
      attack: the attack is saved after the blank default row, which stays in
      front of it, and every other section is saved as its one blank row. */
  lemma LaunchThenAddAttack(s: Sheet, claw: seq<string>)
    requires forall k :: s.Section(k) == []
    requires claw == ["Claw", "Melee", "STR", "+5", "1d6+3"]
    ensures var d := Collect(AddEntry(EnsureDefaults(s), Attacks, claw));
      && d.characterInfo == Some(s.info)
      && d.attacks == Some([["", "", "", "", ""], claw])
      && (forall k :: k != Attacks ==> d.Get(k) == Some([Blank(k)]))
  {
    EnsureDefaultsPolicy(s);
    var launched := EnsureDefaults(s);
    assert launched.Section(Attacks) == [Blank(Attacks)];
    PadExact(claw);
    BlankRow(Attacks);
    var t := AddEntry(launched, Attacks, claw);
    assert t.Section(Attacks) == [Blank(Attacks)] + [Pad(Arity(Attacks), claw)];
    assert t.attacks == [["", "", "", "", ""], claw];
  }
}
