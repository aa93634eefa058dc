/** Naming standards (helixapi/utils/standards.py): per item type, an
    ordered table of replacements and a letter casing, applied to an item's
    name.  The table comes from the `standards` section of the settings
    file and is a parameter here. */
module Standards {
  import opened PyStr

  /** The standard for one item type: `casing` (empty when absent) and
      `replacements`, each a replacement text with the patterns it
      replaces, in the file's order. */
  datatype Rules = Rules(casing: string, replacements: seq<(string, seq<string>)>)

  type Config = map<string, Rules>

  /** `standards.get(item_type, {})`. */
  function RulesFor(cfg: Config, itemType: string): Rules {
    if itemType in cfg then cfg[itemType] else Rules("", [])
  }

  /** Case-insensitive comparison of two equally long strings. */
  predicate SameIgnoringCase(a: string, b: string) { Lower(a) == Lower(b) }

  /** `re.sub(pat, rep, s, flags=re.IGNORECASE)` for a pattern without
      regular-expression syntax: every non-overlapping occurrence, found
      left to right and ignoring case, is replaced.  An empty pattern
      matches between every two characters and at both ends. */
  function ReplaceAll(s: string, pat: string, rep: string): string
    decreases |s|
  {
    if pat == "" then
      if s == [] then rep else rep + [s[0]] + ReplaceAll(s[1..], pat, rep)
    else if |s| < |pat| then s
    else if SameIgnoringCase(s[..|pat|], pat) then rep + ReplaceAll(s[|pat|..], pat, rep)
    else [s[0]] + ReplaceAll(s[1..], pat, rep)
  }

  /** `pat` occurs in `s` at position `i`, ignoring case. */
  predicate MatchAt(s: string, i: int, pat: string) {
    0 <= i && i + |pat| <= |s| && SameIgnoringCase(s[i..i + |pat|], pat)
  }

  /** One replacement entry: each of its patterns in turn, replaced by the
      entry's text. */
  function ReplacePatterns(s: string, key: string, pats: seq<string>): string
    decreases |pats|
  {
    if pats == [] then s
    else ReplaceAll(ReplacePatterns(s, key, pats[..|pats| - 1]), pats[|pats| - 1], key)
  }

  /** The replacement entries in order. */
  function Replacements(s: string, reps: seq<(string, seq<string>)>): string
    decreases |reps|
  {
    if reps == [] then s
    else
      var last := reps[|reps| - 1];
      ReplacePatterns(Replacements(s, reps[..|reps| - 1]), last.0, last.1)
  }

  /** The casing step: the casing name is compared in lower case; an
      unknown name leaves the text as it is. */
  function ApplyCasing(s: string, casing: string): (r: string)
    ensures Lower(casing) == "uppercase" ==> forall i :: 0 <= i < |r| ==> !IsLowerAscii(r[i])
    ensures Lower(casing) == "lowercase" ==> forall i :: 0 <= i < |r| ==> !IsUpperAscii(r[i])
    ensures Lower(casing) !in {"uppercase", "lowercase", "titlecase"} ==> r == s
    ensures |r| == |s|
  {
    var c := Lower(casing);
    if c == "uppercase" then Upper(s)
    else if c == "lowercase" then Lower(s)
    else if c == "titlecase" then Title(s)
    else s
  }

  /** What `Standards.apply` computes. */
  function Standardized(cfg: Config, name: string, itemType: string): string {
    var rules := RulesFor(cfg, itemType);
    ApplyCasing(Replacements(name, rules.replacements), rules.casing)
  }

  /** `Standards.apply`. */
  method Apply(cfg: Config, name: string, itemType: string) returns (r: string)
    ensures r == Standardized(cfg, name, itemType)
  {
    var rules := RulesFor(cfg, itemType);
    var casing := Lower(rules.casing);
    var reps := rules.replacements;
    r := name;
    var i := 0;
    while i < |reps|
      invariant 0 <= i <= |reps|
      invariant r == Replacements(name, reps[..i])
    {
      var (key, pats) := reps[i];
      var j := 0;
      ghost var before := r;
      while j < |pats|
        invariant 0 <= j <= |pats|
        invariant r == ReplacePatterns(before, key, pats[..j])
      {
        r := ReplaceAll(r, pats[j], key);
        assert pats[..j + 1][..j] == pats[..j];
        j := j + 1;
      }
      assert pats[..j] == pats;
      assert reps[..i + 1][..i] == reps[..i];
      i := i + 1;
    }
    assert reps[..i] == reps;
    if casing == "uppercase" {
      r := Upper(r);
    } else if casing == "lowercase" {
      r := Lower(r);
    } else if casing == "titlecase" {
      r := Title(r);
    }
  }

  /** An item type without an entry keeps its names as they are. */
  lemma NoRulesNoChange(cfg: Config, name: string, itemType: string)
    requires itemType !in cfg
    ensures Standardized(cfg, name, itemType) == name
  {
  }

  /** Only the item's own entry matters: changing the standard of another
      type leaves the result unchanged. */
  lemma OtherTypesIrrelevant(cfg: Config, name: string, itemType: string, other: string, rules: Rules)
    requires other != itemType
    ensures Standardized(cfg[other := rules], name, itemType) == Standardized(cfg, name, itemType)
  {
  }

  /** A pattern that does not occur leaves the text unchanged. */
  lemma {:induction false} AbsentPatternNoChange(s: string, pat: string, rep: string)
    requires pat != ""
    requires forall i :: !MatchAt(s, i, pat)
    ensures ReplaceAll(s, pat, rep) == s
    decreases |s|
  {
    if |s| >= |pat| {
      assert !MatchAt(s, 0, pat);
      assert s[0..|pat|] == s[..|pat|];
      forall i ensures !MatchAt(s[1..], i, pat) {
        if 0 <= i && i + |pat| <= |s[1..]| {
          assert s[1..][i..i + |pat|] == s[i + 1..i + 1 + |pat|];
          assert !MatchAt(s, i + 1, pat);
        }
      }
      AbsentPatternNoChange(s[1..], pat, rep);
    }
  }

  /** A non-letter that is not in `s` does not match anywhere in it. */
  lemma AbsentSymbol(s: string, c: char)
    requires !IsCased(c) && c !in s
    ensures forall i :: !MatchAt(s, i, [c])
  {
    forall i | 0 <= i && i + 1 <= |s|
      ensures !MatchAt(s, i, [c])
    {
      assert Lower(s[i..i + 1])[0] == LowerChar(s[i]);
      assert Lower([c])[0] == c;
    }
  }

  /** The preset standard the package's tests use. */
  function TestPresetRules(casing: string): Rules {
    Rules(casing, [(" ", ["_"]), ("Preset", ["New Preset"])])
  }

  /** Worked example: `"New Preset"` becomes `"Preset"` under title
      case. */
  lemma TitleCaseExample()
    ensures Standardized(map["preset" := TestPresetRules("TITLECASE")], "New Preset", "preset") == "Preset"
  {
    var reps := TestPresetRules("TITLECASE").replacements;
    FirstEntryNoChange(reps, "New Preset");
    WholeNameReplaced();
    assert reps[..|reps| - 1] == reps[..1];
    TitleCasing();
  }

  /** Worked example: no pattern occurs in `"PreSet 1"`, so upper case is
      all that happens to it. */
  lemma UpperCaseExample()
    ensures Standardized(map["preset" := TestPresetRules("UPPERCASE")], "PreSet 1", "preset") == "PRESET 1"
  {
    var reps := TestPresetRules("UPPERCASE").replacements;
    FirstEntryNoChange(reps, "PreSet 1");
    NoLongPattern();
    assert reps[..|reps| - 1] == reps[..1];
    UpperCasing();
  }

  /** The snapshot standard the package's tests use. */
  function TestSnapshotRules(): Rules {
    Rules("UPPERCASE", [(" ", ["_"]), ("Solo", ["lead"])])
  }

  /** Worked example: `"Lead"` matches the pattern `"lead"` ignoring case,
      becomes `"Solo"`, and upper case gives `"SOLO"`. */
  lemma LeadExample()
    ensures Standardized(map["snapshot" := TestSnapshotRules()], "Lead", "snapshot") == "SOLO"
  {
    var rules := TestSnapshotRules();
    var reps := rules.replacements;
    assert RulesFor(map["snapshot" := rules], "snapshot") == rules;
    assert ReplaceAll("Lead", "lead", "Solo") == "Solo" by {
      assert Lower("Lead") == "lead";
      assert SameIgnoringCase("Lead"[..4], "lead");
      assert "Lead"[4..] == [];
    }
    assert Replacements("Lead", reps) == "Solo" by {
      FirstEntryNoChange(reps, "Lead");
      assert reps[..|reps| - 1] == reps[..1];
      assert ["lead"][..0] == [];
      assert ReplacePatterns("Lead", "Solo", ["lead"]) == ReplaceAll("Lead", "lead", "Solo");
    }
    assert ApplyCasing("Solo", "UPPERCASE") == "SOLO" by {
      assert Lower("UPPERCASE") == "uppercase";
      assert Upper("Solo") == "SOLO";
    }
  }

  lemma FirstEntryNoChange(reps: seq<(string, seq<string>)>, name: string)
    requires |reps| >= 1 && reps[0] == (" ", ["_"]) && '_' !in name
    ensures Replacements(name, reps[..1]) == name
  {
    AbsentSymbol(name, '_');
    AbsentPatternNoChange(name, "_", " ");
    assert reps[..1][..0] == [];
    assert ["_"][..0] == [];
  }

  lemma WholeNameReplaced()
    ensures ReplaceAll("New Preset", "New Preset", "Preset") == "Preset"
  {
    assert SameIgnoringCase("New Preset"[..10], "New Preset");
  }

  lemma NoLongPattern()
    ensures ReplaceAll("PreSet 1", "New Preset", "Preset") == "PreSet 1"
  {
  }

  lemma TitleCasing()
    ensures ApplyCasing("Preset", "TITLECASE") == "Preset"
  {
    assert Lower("TITLECASE") == "titlecase";
    assert Title("Preset") == "Preset";
  }

  lemma UpperCasing()
    ensures ApplyCasing("PreSet 1", "UPPERCASE") == "PRESET 1"
  {
    assert Lower("UPPERCASE") == "uppercase";
    assert Upper("PreSet 1") == "PRESET 1";
  }

  /** An empty pattern puts the replacement around every character. */
  lemma EmptyPatternInterleaves()
    ensures ReplaceAll("ab", "", "-") == "-a-b-"
  {
  }
}
