/** Recognising the campaign's own candidate by name. The poll data names the
    own candidate in several ways ("CANDIDATO PROPIO", "Mandfred Reyes",
    "Manfred  Reyes", ...); the tracking chart merges them all into one
    series, while the survey table has a stricter test that only trims and
    lower-cases. */
module Aliases {
  import opened Text

  /** `nombre.trim().replace(/\s+/g, " ").toLowerCase()` */
  function Canonical(name: string): string {
    Lower(CollapseSpaces(Trim(name)))
  }

  /** The tracking chart's test for an alias of the own candidate. */
  predicate IsOwnCandidate(name: string) {
    if name == [] then false
    else
      var lower := Canonical(name);
      || lower == "mandfred reyes"
      || lower == "manfred reyes"
      || lower == "candidato propio"
      || (Contains(lower, "mandfred") && Contains(lower, "reyes"))
      || (Contains(lower, "manfred") && Contains(lower, "reyes"))
  }

  /** The survey table's test: trimmed and lower-cased, but runs of white
      space are kept and only two exact spellings are accepted. */
  predicate IsOwnCandidateStrict(name: string) {
    var lower := Lower(Trim(name));
    lower == "mandfred reyes" || lower == "candidato propio"
  }

  // ---- what the loose test accepts ----

  /** The two exact full-name spellings are redundant: the test accepts a
      non-empty name exactly when its canonical form is "candidato propio"
      or mentions "reyes" together with "manfred" or "mandfred". */
  lemma IsOwnCandidateCharacterization(name: string)
    ensures IsOwnCandidate(name) <==>
      name != [] &&
      (|| Canonical(name) == "candidato propio"
       || (Contains(Canonical(name), "reyes") &&
           (Contains(Canonical(name), "manfred") || Contains(Canonical(name), "mandfred"))))
  {
    var lower := Canonical(name);
    if lower == "mandfred reyes" {
      assert OccursAt(lower, "mandfred", 0);
      assert OccursAt(lower, "reyes", 9);
    } else if lower == "manfred reyes" {
      assert OccursAt(lower, "manfred", 0);
      assert OccursAt(lower, "reyes", 8);
    }
  }

  /** The canonical form can be computed on the lower-cased name. */
  lemma CanonicalOfLower(name: string)
    ensures Canonical(name) == CollapseSpaces(Trim(Lower(name)))
  {
    LowerCollapse(Trim(name));
    LowerTrim(name);
  }

  /** The canonical form can be computed by collapsing first. */
  lemma CanonicalOfCollapsed(name: string)
    ensures Canonical(name) == Lower(Trim(CollapseSpaces(name)))
  {
    TrimCollapseCommute(name);
  }

  /** The canonical form is its own canonical form, so the test judges a
      name and its canonical form alike. */
  lemma CanonicalIdempotent(name: string)
    ensures Canonical(Canonical(name)) == Canonical(name)
    ensures IsOwnCandidate(Canonical(name)) == IsOwnCandidate(name)
  {
    var t := Trim(name);
    var c := Canonical(name);
    TrimIdempotent(name);
    TrimCollapseCommute(t);
    LowerTrim(CollapseSpaces(t));
    assert Trim(c) == c;
    LowerCollapse(CollapseSpaces(t));
    CollapseIdempotent(t);
    assert CollapseSpaces(c) == c;
    LowerIdempotent(c);
    if name == [] {
      assert t == [];
    }
  }

  /** Letter case does not matter. */
  lemma IsOwnCandidateIgnoresCase(s: string, t: string)
    requires Lower(s) == Lower(t)
    ensures IsOwnCandidate(s) == IsOwnCandidate(t)
  {
    CanonicalOfLower(s);
    CanonicalOfLower(t);
  }

  /** White space around the name does not matter. */
  lemma IsOwnCandidateIgnoresSurroundingSpace(w1: string, s: string, w2: string)
    requires AllSpace(w1) && AllSpace(w2)
    ensures IsOwnCandidate(w1 + s + w2) == IsOwnCandidate(s)
  {
    TrimIgnoresSurroundingSpace(w1, s, w2);
    if s == [] {
      TrimIgnoresSurroundingSpace([], [], []);
      assert Canonical(w1 + s + w2) == [];
    }
  }

  /** Any run of white space inside the name counts as one space. */
  lemma IsOwnCandidateIgnoresRepeatedSpace(a: string, w: string, b: string)
    requires w != [] && AllSpace(w)
    ensures IsOwnCandidate(a + w + b) == IsOwnCandidate(a + " " + b)
  {
    CollapseSpaceRun(a, w, b);
    CanonicalOfCollapsed(a + w + b);
    CanonicalOfCollapsed(a + " " + b);
  }

  /** A word in the lower-cased name is still in its canonical form. */
  lemma MentionSurvives(name: string, u: string, p: string, v: string)
    requires p != [] && IsWord(p)
    requires Lower(name) == u + p + v
    ensures Contains(Canonical(name), p)
  {
    CanonicalOfLower(name);
    WordSurvives(u, p, v);
  }

  /** A name whose lower-cased form mentions "reyes" and "manfred" or
      "mandfred" anywhere is accepted, whatever surrounds those words. */
  lemma IsOwnCandidateAcceptsMention(name: string, u1: string, v1: string, u2: string, v2: string, first: string)
    requires first == "manfred" || first == "mandfred"
    requires Lower(name) == u1 + "reyes" + v1
    requires Lower(name) == u2 + first + v2
    ensures IsOwnCandidate(name)
  {
    assert IsWord("reyes") && IsWord(first);
    MentionSurvives(name, u1, "reyes", v1);
    MentionSurvives(name, u2, first, v2);
    IsOwnCandidateCharacterization(name);
  }

  lemma SpellingsAreSingleSpaced()
    ensures SingleSpaced("mandfred reyes")
    ensures SingleSpaced("candidato propio")
  {
    assert "mandfred reyes" == "mandfred" + " " + "reyes";
    assert "candidato propio" == "candidato" + " " + "propio";
    TwoWordsAreSingleSpaced("mandfred", "reyes");
    TwoWordsAreSingleSpaced("candidato", "propio");
  }

  /** When trimming and lower-casing leave a single-spaced string, that is
      the canonical form. */
  lemma CanonicalOfSingleSpaced(name: string)
    requires SingleSpaced(Lower(Trim(name)))
    ensures Canonical(name) == Lower(Trim(name))
  {
    LowerCollapse(Trim(name));
    SqueezeOfSqueezed(Lower(Trim(name)), false);
  }

  /** The chart's own-candidate label is itself an alias, in any case. */
  lemma OwnLabelIsOwnCandidate()
    ensures IsOwnCandidate("CANDIDATO PROPIO")
    ensures IsOwnCandidate("candidato propio")
  {
    OwnLabelIsStrict();
    StrictImpliesLoose("CANDIDATO PROPIO");
    StrictImpliesLoose("candidato propio");
  }

  /** Both spellings of the label pass the survey table's test too. */
  lemma OwnLabelIsStrict()
    ensures IsOwnCandidateStrict("CANDIDATO PROPIO")
    ensures IsOwnCandidateStrict("candidato propio")
  {
    UpperLabelIsStrict();
    LowerLabelIsStrict();
  }

  lemma UpperLabelIsStrict()
    ensures IsOwnCandidateStrict("CANDIDATO PROPIO")
  {
    TrimOfWordEnds("CANDIDATO PROPIO");
    OwnLabelLowered();
  }

  lemma LowerLabelIsStrict()
    ensures IsOwnCandidateStrict("candidato propio")
  {
    TrimOfWordEnds("candidato propio");
    OwnLabelLowered();
  }

  lemma OwnLabelLowered()
    ensures Lower("CANDIDATO PROPIO") == "candidato propio"
    ensures Lower("candidato propio") == "candidato propio"
  {
  }

  // ---- the strict test ----

  /** Whatever the strict test accepts, the loose one accepts. */
  lemma StrictImpliesLoose(name: string)
    requires IsOwnCandidateStrict(name)
    ensures IsOwnCandidate(name)
  {
    SpellingsAreSingleSpaced();
    CanonicalOfSingleSpaced(name);
    assert name != [];
  }

  /** The two tests disagree: a name that trims and lower-cases to
      "manfred reyes" ("Manfred Reyes", say) is only accepted by the loose
      one. */
  lemma StrictIsStricter(name: string)
    requires Lower(Trim(name)) == "manfred reyes"
    ensures IsOwnCandidate(name)
    ensures !IsOwnCandidateStrict(name)
  {
    OtherSpellingIsSingleSpaced();
    CanonicalOfSingleSpaced(name);
    assert |Trim(name)| == 13;
    assert name != [];
    NotStrictByLength(name);
  }

  lemma OtherSpellingIsSingleSpaced()
    ensures SingleSpaced("manfred reyes")
  {
    assert "manfred reyes" == "manfred" + " " + "reyes";
    TwoWordsAreSingleSpaced("manfred", "reyes");
  }

  /** The strict test only accepts names that trim to 14 or 16 characters. */
  lemma NotStrictByLength(name: string)
    requires |Trim(name)| != 14 && |Trim(name)| != 16
    ensures !IsOwnCandidateStrict(name)
  {
    assert |Lower(Trim(name))| == |Trim(name)|;
  }

  // ---- what the loose test rejects ----

  /** A name made only of white space is not an alias: its canonical form is
      empty. */
  lemma BlankIsNotOwnCandidate(name: string)
    requires AllSpace(name)
    ensures Canonical(name) == []
    ensures !IsOwnCandidate(name)
  {
    TrimStartOfSpace(name);
    assert Trim(name) == [];
  }

  /** A character that no character of the name lower-cases to, other than
      the space, is not in its canonical form. */
  lemma CanonicalLacks(name: string, c: char)
    requires c != ' '
    requires forall d :: d in name ==> LowerChar(d) != c
    ensures c !in Canonical(name)
  {
    var t := Trim(name);
    assert forall d :: d in t ==> d in name by {
      var t0 := TrimStart(name);
      forall d | d in t
        ensures d in name
      {
        var i :| 0 <= i < |t| && t[i] == d;
        assert t0[i] == d;
        assert name[|name| - |t0| + i] == d;
      }
    }
    SqueezeShape(t, false);
    var col := CollapseSpaces(t);
  }

  /** A name none of whose characters lower-cases to some letter of "reyes",
      nor to some letter of "candidato propio", is not an alias. */
  lemma NotOwnWithout(name: string, c: char, d: char)
    requires c in "reyes" && d in "candidato propio" && d != ' '
    requires forall x :: x in name ==> LowerChar(x) != c && LowerChar(x) != d
    ensures !IsOwnCandidate(name)
  {
    CanonicalLacks(name, c);
    CanonicalLacks(name, d);
    IsOwnCandidateCharacterization(name);
    var lower := Canonical(name);
    assert d in lower ==> false;
    var j :| 0 <= j < 5 && "reyes"[j] == c;
    if Contains(lower, "reyes") {
      ContainsChar(lower, "reyes", j);
    }
  }
}
