/** The matcher run against the shipped directory `Catalog.LOCATIONS`. */
module Scenarios {
  import opened Strings
  import opened Catalog
  import opened Scoring
  import opened StableSort
  import opened Matcher

  /** With only `gravidade = "grave"` a location scores 10 when it is tagged "grave" and 0 otherwise:
      the search string is "grave", which holds none of the other keywords. */
  lemma SevereOnlyScore(loc: Location)
    ensures Score(Args(None, None, Some("grave")), loc) == if "grave" in loc.tags then 10 else 0
  {
    var q := Args(None, None, Some("grave"));
    assert QueryParts(q) == ["grave"];
    assert SearchTerms(q) == "grave";
    ScoreSplit(q, loc);
    MissingCharExcludes("grave", "pet", 0);
    if Contains("grave", "animal") { ContainsNeedsRoom("grave", "animal"); }
    if Contains("grave", "document") { ContainsNeedsRoom("grave", "document"); }
    if Contains("grave", "dormir") { ContainsNeedsRoom("grave", "dormir"); }
    if Contains("grave", "pernoite") { ContainsNeedsRoom("grave", "pernoite"); }
    if Contains("grave", "mulher") { ContainsNeedsRoom("grave", "mulher"); }
    if Contains("grave", "feminina") { ContainsNeedsRoom("grave", "feminina"); }
  }

  /** In a directory whose first three entries, and no others, are tagged "grave",
      `gravidade = "grave"` returns those three with 10 points each, in directory order. */
  lemma SevereQueryTopThree(catalog: seq<Location>)
    requires |catalog| >= 3
    requires forall i :: 0 <= i < |catalog| ==> ("grave" in catalog[i].tags <==> i < 3)
    ensures TopMatches(Args(None, None, Some("grave")), catalog)
         == [Scored(catalog[0], 10), Scored(catalog[1], 10), Scored(catalog[2], 10)]
  {
    var q := Args(None, None, Some("grave"));
    var all := ScoreAll(q, catalog);
    forall i | 0 <= i < |catalog|
      ensures all[i].score == if i < 3 then 10 else 0
    {
      SevereOnlyScore(catalog[i]);
    }
    assert NonIncreasing(all);
    SortedInputUnchanged(all);
  }

  /** `gravidade = "grave"` with no `demanda` returns the three UPAs of the shipped directory,
      each with 10 points, in catalog order: UPA Vila Xavier, UPA Valle Verde, UPA Central. */
  lemma SevereQueryReturnsUpas()
    ensures var r := TopMatches(Args(None, None, Some("grave")), LOCATIONS);
            r == [Scored(LOCATIONS[0], 10), Scored(LOCATIONS[1], 10), Scored(LOCATIONS[2], 10)]
            && r[0].location.name == "UPA Vila Xavier"
            && r[1].location.name == "UPA Valle Verde"
            && r[2].location.name == "UPA Central"
  {
    assert forall i :: 0 <= i < 3 ==> "grave" in LOCATIONS[i].tags;
    assert forall i :: 3 <= i < 10 ==> "grave" !in LOCATIONS[i].tags;
    SevereQueryTopThree(LOCATIONS);
  }

  /** The search string of the pet-and-woman query. */
  const PET_TERMS: string := "pet mulher com animal"

  /** The pet-and-woman search string mentions an animal and a woman ... */
  lemma PetTermsHold()
    ensures Contains(PET_TERMS, "animal") && Contains(PET_TERMS, "mulher")
  {
    assert PET_TERMS[15..21] == "animal";
    OccurrenceIsFound(PET_TERMS, "animal", 15);
    assert PET_TERMS[4..10] == "mulher";
    OccurrenceIsFound(PET_TERMS, "mulher", 4);
  }

  /** ... holds no "d", so neither "document" nor "dormir" ... */
  lemma PetTermsLackD()
    ensures !Contains(PET_TERMS, "document") && !Contains(PET_TERMS, "dormir")
  {
    MissingCharExcludes(PET_TERMS, "document", 0);
    MissingCharExcludes(PET_TERMS, "dormir", 0);
  }

  /** ... and no "rn", so not "pernoite". */
  lemma PetTermsLackPernoite()
    ensures !Contains(PET_TERMS, "pernoite")
  {
    MissingPairExcludes(PET_TERMS, "pernoite", 2);
  }

  /** `demanda` and `perfil_usuario` joined by a space make the search string. */
  lemma PetQueryTerms()
    ensures SearchTerms(Args(Some("pet"), Some("mulher com animal"), None)) == PET_TERMS
  {
    var q := Args(Some("pet"), Some("mulher com animal"), None);
    var parts := QueryParts(q);
    assert parts == ["pet", "mulher com animal"];
    assert Join(parts[1..], " ") == "mulher com animal" by {
      assert parts[1..] == ["mulher com animal"];
    }
    assert Join(parts, " ") == "pet" + " " + "mulher com animal" == PET_TERMS;
    forall i | 0 <= i < |PET_TERMS|
      ensures LowerChar(PET_TERMS[i]) == PET_TERMS[i]
    {
      assert 'a' <= PET_TERMS[i] <= 'z' || PET_TERMS[i] == ' ';
    }
    ToLowerKeepsLower(PET_TERMS);
  }

  /** The pet-and-woman query gives 20 points for the "animais" tag, 5 for the "feminino" tag
      and 2 when "pet" occurs in the lower-cased name and tags; nothing else scores. */
  lemma PetQueryScore(loc: Location)
    ensures Score(Args(Some("pet"), Some("mulher com animal"), None), loc)
         == (if "animais" in loc.tags then 20 else 0) + (if "feminino" in loc.tags then 5 else 0)
          + (if Contains(LocString(loc), "pet") then 2 else 0)
  {
    var q := Args(Some("pet"), Some("mulher com animal"), None);
    PetQueryTerms();
    assert Contribution(Animals, q, loc) == if "animais" in loc.tags then 20 else 0 by {
      PetTermsHold();
    }
    assert Contribution(Women, q, loc) == if "feminino" in loc.tags then 5 else 0 by {
      PetTermsHold();
    }
    assert Contribution(Documents, q, loc) == 0 by {
      PetTermsLackD();
    }
    assert Contribution(Overnight, q, loc) == 0 by {
      PetTermsLackD();
      PetTermsLackPernoite();
    }
    assert Contribution(DemandMatch, q, loc) == if Contains(LocString(loc), "pet") then 2 else 0 by {
      assert ToLower("pet") == "pet";
    }
    ScoreSplit(q, loc);
  }

  /** A location tagged "animais", "feminino" and "pet" collects all 27 points the pet-and-woman
      query can give. */
  lemma PetQueryFullScore(loc: Location)
    requires "animais" in loc.tags && "feminino" in loc.tags && "pet" in loc.tags
    ensures Score(Args(Some("pet"), Some("mulher com animal"), None), loc) == 27
  {
    var q := Args(Some("pet"), Some("mulher com animal"), None);
    var t :| 0 <= t < |loc.tags| && loc.tags[t] == "pet";
    assert OccursAt("pet", "pet", 0);
    OccurrenceIsFound("pet", "pet", 0);
    assert ToLower("pet") == "pet";
    DemandaFoundInNameOrTag(q, loc, t);
    PetQueryScore(loc);
  }

  /** In a directory where only the entry at `k` is tagged "animais", and that entry is also
      tagged "feminino" and "pet", the pet-and-woman query ranks it first with 27 points. */
  lemma PetQueryTopIsAnimalShelter(catalog: seq<Location>, k: int)
    requires 0 <= k < |catalog|
    requires forall i :: 0 <= i < |catalog| ==> ("animais" in catalog[i].tags <==> i == k)
    requires "feminino" in catalog[k].tags && "pet" in catalog[k].tags
    ensures var r := TopMatches(Args(Some("pet"), Some("mulher com animal"), None), catalog);
            |r| == Min(TOP_K, |catalog|) && r[0] == Scored(catalog[k], 27)
  {
    var q := Args(Some("pet"), Some("mulher com animal"), None);
    var all := ScoreAll(q, catalog);
    PetQueryFullScore(catalog[k]);
    forall i | 0 <= i < |catalog| && i != k
      ensures all[i].score <= 7
    {
      PetQueryScore(catalog[i]);
    }
    SortedHeadIsUniqueBest(all, k);
    SortedByScorePermutes(all);
  }

  /** `demanda = "pet"` with `perfil_usuario = "mulher com animal"` puts Associação São Pio first,
      with 20 (animals) + 5 (women) + 2 (`demanda` found in its tags) = 27 points. */
  lemma PetQueryPrefersSaoPio()
    ensures var r := TopMatches(Args(Some("pet"), Some("mulher com animal"), None), LOCATIONS);
            |r| == 3 && r[0] == Scored(LOCATIONS[5], 27) && r[0].location.name == "Associação São Pio"
  {
    assert forall i :: 0 <= i < 10 && i != 5 ==> "animais" !in LOCATIONS[i].tags;
    assert "animais" in LOCATIONS[5].tags;
    assert "feminino" in LOCATIONS[5].tags && "pet" in LOCATIONS[5].tags;
    PetQueryTopIsAnimalShelter(LOCATIONS, 5);
  }

  /** "Documentos" in `perfil_usuario` triggers the +10 for Centro Pop, the location tagged
      "documentos". */
  lemma DocumentosInProfileReachesCentroPop()
    ensures Contribution(Documents, Args(None, Some("Documentos"), None), LOCATIONS[7]) == 10
  {
    assert ToLower("Documentos") == "documentos";
    assert OccursAt("documentos", "document", 0);
    OccurrenceIsFound("documentos", "document", 0);
    ProfileKeywordTriggers(Args(None, Some("Documentos"), None), LOCATIONS[7]);
  }

  /** No name in the shipped directory holds an "f" in either case; one lemma per entry keeps
      each check small. */
  lemma NameLacksF0() ensures 'f' !in LOCATIONS[0].name && 'F' !in LOCATIONS[0].name { }
  lemma NameLacksF1() ensures 'f' !in LOCATIONS[1].name && 'F' !in LOCATIONS[1].name { }
  lemma NameLacksF2() ensures 'f' !in LOCATIONS[2].name && 'F' !in LOCATIONS[2].name { }
  lemma NameLacksF3() ensures 'f' !in LOCATIONS[3].name && 'F' !in LOCATIONS[3].name
  {
    var name := LOCATIONS[3].name;
    assert name == "UBS (Unidade Básica de Saúde)";
    forall m | 0 <= m < |name| ensures name[m] != 'f' && name[m] != 'F' { }
  }
  lemma NameLacksF4() ensures 'f' !in LOCATIONS[4].name && 'F' !in LOCATIONS[4].name { }
  lemma NameLacksF5() ensures 'f' !in LOCATIONS[5].name && 'F' !in LOCATIONS[5].name { }
  lemma NameLacksF6() ensures 'f' !in LOCATIONS[6].name && 'F' !in LOCATIONS[6].name { }
  lemma NameLacksF7() ensures 'f' !in LOCATIONS[7].name && 'F' !in LOCATIONS[7].name { }
  lemma NameLacksF8() ensures 'f' !in LOCATIONS[8].name && 'F' !in LOCATIONS[8].name { }
  lemma NameLacksF9() ensures 'f' !in LOCATIONS[9].name && 'F' !in LOCATIONS[9].name { }

  /** Every tag in the shipped directory is too short, or lacks an "f" or a "u", to hold
      "undefined". */
  lemma ShippedTagsCannotSpellUndefined()
    ensures forall i, k :: 0 <= i < |LOCATIONS| && 0 <= k < |LOCATIONS[i].tags| ==>
                           CannotSpellUndefined(LOCATIONS[i].tags[k])
  {
  }

  /** No name or tag of the shipped directory can hold "undefined". */
  lemma ShippedPiecesCannotSpellUndefined(i: int)
    requires 0 <= i < |LOCATIONS|
    ensures CannotSpellUndefined(LOCATIONS[i].name)
    ensures forall k :: 0 <= k < |LOCATIONS[i].tags| ==> CannotSpellUndefined(LOCATIONS[i].tags[k])
  {
    ShippedTagsCannotSpellUndefined();
    if i == 0 {
      NameLacksF0();
    } else if i == 1 {
      NameLacksF1();
    } else if i == 2 {
      NameLacksF2();
    } else if i == 3 {
      NameLacksF3();
    } else if i == 4 {
      NameLacksF4();
    } else if i == 5 {
      NameLacksF5();
    } else if i == 6 {
      NameLacksF6();
    } else if i == 7 {
      NameLacksF7();
    } else if i == 8 {
      NameLacksF8();
    } else {
      NameLacksF9();
    }
  }

  /** On the shipped directory the matcher as written, with its "undefined" search when
      `demanda` is absent, returns exactly what the modelled matcher returns, for every query. */
  lemma ShippedDirectoryUnaffected(q: Args)
    ensures TopMatchesAsWritten(q, LOCATIONS) == TopMatches(q, LOCATIONS)
  {
    forall i | 0 <= i < |LOCATIONS|
      ensures DemandaBonusAsWritten(q, LOCATIONS[i]) == Contribution(DemandMatch, q, LOCATIONS[i])
    {
      ShippedPiecesCannotSpellUndefined(i);
      AsWrittenBonusAgrees(q, LOCATIONS[i]);
    }
    AsWrittenRankingAgrees(q, LOCATIONS);
  }
}
