/** Scoring one location against the arguments of a `consultar_rede_atendimento` tool call:
    the search string, the seven additive rules, and the per-location scoring loop body. */
module Scoring {
  import opened Strings
  import opened Catalog

  datatype Option<T> = None | Some(value: T)

  /** The tool-call arguments the matcher reads. `None` is a field that is absent, undefined or
      null. `gravidade` is one of "leve", "moderada", "grave" by the tool's declaration, but the
      matcher accepts any string. */
  datatype Args = Args(demanda: Option<string>, perfilUsuario: Option<string>, gravidade: Option<string>)

  /** `[field].filter(Boolean)` for one string field: absent fields and empty strings are dropped. */
  function Present(field: Option<string>): seq<string>
  {
    if field.Some? && field.value != "" then [field.value] else []
  }

  /** The fields that make up the search string, in the order demanda, perfil_usuario, gravidade. */
  function QueryParts(q: Args): seq<string>
  {
    Present(q.demanda) + Present(q.perfilUsuario) + Present(q.gravidade)
  }

  /** `[demanda, perfil_usuario, gravidade].filter(Boolean).join(" ").toLowerCase()`. */
  function SearchTerms(q: Args): string
  {
    ToLower(Join(QueryParts(q), " "))
  }

  /** `(loc.name + " " + loc.tags.join(" ")).toLowerCase()`: what `demanda` is looked up in. */
  function LocString(loc: Location): string
  {
    ToLower(loc.name + " " + Join(loc.tags, " "))
  }

  /** The scoring rules, in the order the source applies them. */
  datatype Rule = SevereCase | MildCase | Animals | Documents | Overnight | Women | DemandMatch

  const RULES: seq<Rule> := [SevereCase, MildCase, Animals, Documents, Overnight, Women, DemandMatch]

  /** Points a rule adds when it fires. */
  function Weight(r: Rule): nat
  {
    match r
    case SevereCase => 10
    case MildCase => 10
    case Animals => 20
    case Documents => 10
    case Overnight => 5
    case Women => 5
    case DemandMatch => 2
  }

  /** When a rule fires for a location. `gravidade` is compared as given, not lower-cased; the
      keyword rules look into the lower-cased search string and need an exact tag; the `demanda`
      rule looks for the lower-cased `demanda` in the location's lower-cased name and tags, and
      does not fire when `demanda` is absent. */
  predicate Fires(r: Rule, q: Args, loc: Location)
  {
    var terms := SearchTerms(q);
    match r
    case SevereCase => q.gravidade == Some("grave") && "grave" in loc.tags
    case MildCase => q.gravidade == Some("leve") && "leve" in loc.tags
    case Animals => (Contains(terms, "animal") || Contains(terms, "pet")) && "animais" in loc.tags
    case Documents => Contains(terms, "document") && "documentos" in loc.tags
    case Overnight => (Contains(terms, "dormir") || Contains(terms, "pernoite")) && "pernoite" in loc.tags
    case Women => (Contains(terms, "mulher") || Contains(terms, "feminina")) && "feminino" in loc.tags
    case DemandMatch => q.demanda.Some? && Contains(LocString(loc), ToLower(q.demanda.value))
  }

  /** Points rule `r` gives this location for this query. */
  function Contribution(r: Rule, q: Args, loc: Location): nat
  {
    if Fires(r, q, loc) then Weight(r) else 0
  }

  /** Sum of the contributions of a list of rules. */
  function RuleSum(rules: seq<Rule>, q: Args, loc: Location): int
  {
    if rules == [] then 0 else Contribution(rules[0], q, loc) + RuleSum(rules[1..], q, loc)
  }

  /** The score of a location: the sum over the rule table, every rule checked. */
  function Score(q: Args, loc: Location): int
  {
    RuleSum(RULES, q, loc)
  }

  /** Additive independence: the score is the sum of the seven rules' contributions, none of
      which depends on whether another fired. */
  lemma ScoreSplit(q: Args, loc: Location)
    ensures Score(q, loc)
         == Contribution(SevereCase, q, loc) + Contribution(MildCase, q, loc)
          + Contribution(Animals, q, loc) + Contribution(Documents, q, loc)
          + Contribution(Overnight, q, loc) + Contribution(Women, q, loc)
          + Contribution(DemandMatch, q, loc)
  {
    assert RuleSum([DemandMatch], q, loc) == Contribution(DemandMatch, q, loc);
    assert RuleSum([Women, DemandMatch], q, loc)
        == Contribution(Women, q, loc) + RuleSum([DemandMatch], q, loc);
    assert RuleSum([Overnight, Women, DemandMatch], q, loc)
        == Contribution(Overnight, q, loc) + RuleSum([Women, DemandMatch], q, loc);
    assert RuleSum([Documents, Overnight, Women, DemandMatch], q, loc)
        == Contribution(Documents, q, loc) + RuleSum([Overnight, Women, DemandMatch], q, loc);
    assert RuleSum([Animals, Documents, Overnight, Women, DemandMatch], q, loc)
        == Contribution(Animals, q, loc) + RuleSum([Documents, Overnight, Women, DemandMatch], q, loc);
    assert RuleSum([MildCase, Animals, Documents, Overnight, Women, DemandMatch], q, loc)
        == Contribution(MildCase, q, loc) + RuleSum([Animals, Documents, Overnight, Women, DemandMatch], q, loc);
    assert RuleSum(RULES, q, loc)
        == Contribution(SevereCase, q, loc) + RuleSum([MildCase, Animals, Documents, Overnight, Women, DemandMatch], q, loc);
  }

  /** Every score lies between 0 and 52: the two severity rules exclude each other, so at most
      10 + 20 + 10 + 5 + 5 + 2 points can be collected. */
  lemma ScoreBounds(q: Args, loc: Location)
    ensures 0 <= Score(q, loc) <= 52
  {
    ScoreSplit(q, loc);
    assert !(Fires(SevereCase, q, loc) && Fires(MildCase, q, loc));
  }

  /** The body of the `LOCATIONS.map` callback: start from 0 and add each rule's points in turn. */
  method ScoreLocation(q: Args, terms: string, loc: Location) returns (score: int)
    requires terms == SearchTerms(q)
    ensures score == Score(q, loc)
  {
    score := 0;
    var locString := LocString(loc);
    if q.gravidade == Some("grave") && "grave" in loc.tags {
      score := score + 10;
    }
    assert score == Contribution(SevereCase, q, loc);
    if q.gravidade == Some("leve") && "leve" in loc.tags {
      score := score + 10;
    }
    ghost var upTo := Contribution(SevereCase, q, loc) + Contribution(MildCase, q, loc);
    assert score == upTo;
    if Contains(terms, "animal") || Contains(terms, "pet") {
      if "animais" in loc.tags {
        score := score + 20;
      }
    }
    upTo := upTo + Contribution(Animals, q, loc);
    assert score == upTo;
    if Contains(terms, "document") {
      if "documentos" in loc.tags {
        score := score + 10;
      }
    }
    upTo := upTo + Contribution(Documents, q, loc);
    assert score == upTo;
    if Contains(terms, "dormir") || Contains(terms, "pernoite") {
      if "pernoite" in loc.tags {
        score := score + 5;
      }
    }
    upTo := upTo + Contribution(Overnight, q, loc);
    assert score == upTo;
    if Contains(terms, "mulher") || Contains(terms, "feminina") {
      if "feminino" in loc.tags {
        score := score + 5;
      }
    }
    upTo := upTo + Contribution(Women, q, loc);
    assert score == upTo;
    if q.demanda.Some? && Contains(locString, ToLower(q.demanda.value)) {
      score := score + 2;
    }
    upTo := upTo + Contribution(DemandMatch, q, loc);
    assert score == upTo;
    ScoreSplit(q, loc);
  }

  /** Every non-empty field given in the query, lower-cased, is part of the search string, so a
      keyword in any of the three fields triggers its rule. */
  lemma SearchTermsHoldFields(q: Args)
    ensures forall k :: 0 <= k < |QueryParts(q)| ==> Contains(SearchTerms(q), ToLower(QueryParts(q)[k]))
  {
    forall k | 0 <= k < |QueryParts(q)|
      ensures Contains(SearchTerms(q), ToLower(QueryParts(q)[k]))
    {
      JoinContainsPart(QueryParts(q), " ", k);
      ContainsToLower(Join(QueryParts(q), " "), QueryParts(q)[k]);
    }
  }

  /** A keyword anywhere in `perfil_usuario`, in any letter case, triggers the documents rule
      for a location tagged "documentos". */
  lemma ProfileKeywordTriggers(q: Args, loc: Location)
    requires q.perfilUsuario.Some? && Contains(ToLower(q.perfilUsuario.value), "document")
    requires "documentos" in loc.tags
    ensures Fires(Documents, q, loc) && Contribution(Documents, q, loc) == 10
  {
    var p := q.perfilUsuario.value;
    ContainsNeedsRoom(ToLower(p), "document");
    var k := |Present(q.demanda)|;
    assert QueryParts(q)[k] == p;
    SearchTermsHoldFields(q);
    ContainsTransitive(SearchTerms(q), ToLower(p), "document");
  }

  /** The severity rules compare `gravidade` as given: "Grave" does not fire the severe rule,
      although it puts "grave" into the lower-cased search string. */
  lemma SeverityIsCaseSensitive(loc: Location)
    ensures !Fires(SevereCase, Args(None, None, Some("Grave")), loc)
    ensures Contains(SearchTerms(Args(None, None, Some("Grave"))), "grave")
  {
    var q := Args(None, None, Some("Grave"));
    assert QueryParts(q) == ["Grave"];
    assert SearchTerms(q) == "grave";
    assert OccursAt("grave", "grave", 0);
    OccurrenceIsFound("grave", "grave", 0);
  }

  /** A `demanda` that appears in the location's name or in one of its tags, letter case
      ignored on both sides, earns the +2 bonus. */
  lemma DemandaFoundInNameOrTag(q: Args, loc: Location, k: int)
    requires q.demanda.Some?
    requires Contains(ToLower(loc.name), ToLower(q.demanda.value))
          || (0 <= k < |loc.tags| && Contains(ToLower(loc.tags[k]), ToLower(q.demanda.value)))
    ensures Fires(DemandMatch, q, loc) && Contribution(DemandMatch, q, loc) == 2
  {
    var d := ToLower(q.demanda.value);
    var joined := Join(loc.tags, " ");
    ToLowerConcat(loc.name + " ", joined);
    ToLowerConcat(loc.name, " ");
    assert LocString(loc) == ToLower(loc.name) + ToLower(" ") + ToLower(joined);
    if Contains(ToLower(loc.name), d) {
      ContainsInConcat(ToLower(loc.name), ToLower(" "), d);
      ContainsInConcat(ToLower(loc.name) + ToLower(" "), ToLower(joined), d);
    } else {
      JoinContainsPart(loc.tags, " ", k);
      ContainsToLower(joined, loc.tags[k]);
      ContainsTransitive(ToLower(joined), ToLower(loc.tags[k]), d);
      ContainsInConcat(ToLower(loc.name) + ToLower(" "), ToLower(joined), d);
    }
  }

  /** An empty `demanda` is dropped from the search string but still found in every location
      (the empty string occurs everywhere), so it adds exactly 2 to every score compared with
      an absent `demanda`. */
  lemma EmptyDemandaShift(q: Args, loc: Location)
    ensures Score(q.(demanda := Some("")), loc) == Score(q.(demanda := None), loc) + 2
  {
    var qe := q.(demanda := Some(""));
    var qn := q.(demanda := None);
    assert QueryParts(qe) == QueryParts(qn);
    assert StartsWith(LocString(loc), ToLower(""));
    ScoreSplit(qe, loc);
    ScoreSplit(qn, loc);
  }

  /** `locString.includes(demanda?.toLowerCase())` exactly as written: when `demanda` is absent
      the optional call yields undefined, which `includes` turns into the string "undefined". */
  function DemandaBonusAsWritten(q: Args, loc: Location): (bonus: nat)
    ensures bonus == 0 || bonus == 2
  {
    var needle := if q.demanda.Some? then ToLower(q.demanda.value) else "undefined";
    if Contains(LocString(loc), needle) then 2 else 0
  }

  /** The two agree whenever `demanda` is given; with `demanda` absent, a location whose name
      or tags spell "undefined" gets the bonus as written, and nothing under the corrected rule. */
  lemma AbsentDemandaMatchesUndefined(q: Args)
    ensures q.demanda.Some? ==> forall loc :: DemandaBonusAsWritten(q, loc) == Contribution(DemandMatch, q, loc)
    ensures var loc := Location("Undefined", "", "", []);
            DemandaBonusAsWritten(Args(None, None, None), loc) == 2
            && Contribution(DemandMatch, Args(None, None, None), loc) == 0
  {
    var loc := Location("Undefined", "", "", []);
    assert LocString(loc) == "undefined ";
    assert OccursAt("undefined ", "undefined", 0);
    OccurrenceIsFound("undefined ", "undefined", 0);
  }

  /** A piece of a location string in which "undefined" cannot occur: it is shorter than the
      word, or lacks its "f" or its "u" in both letter cases. */
  predicate CannotSpellUndefined(p: string)
  {
    |p| < 9 || ('f' !in p && 'F' !in p) || ('u' !in p && 'U' !in p)
  }

  lemma PieceLacksUndefined(p: string)
    requires CannotSpellUndefined(p)
    ensures !Contains(ToLower(p), "undefined")
  {
    if |p| < 9 {
      ContainsIff(ToLower(p), "undefined");
    } else if 'f' !in p && 'F' !in p {
      MissingLowerCharExcludes(p, "undefined", 4);
    } else {
      MissingLowerCharExcludes(p, "undefined", 0);
    }
  }

  /** A location whose name and tags each cannot hold "undefined" does not spell it in its
      lower-cased location string either: the word has no space, so it cannot straddle two pieces. */
  lemma LocationLacksUndefined(loc: Location)
    requires CannotSpellUndefined(loc.name)
    requires forall k :: 0 <= k < |loc.tags| ==> CannotSpellUndefined(loc.tags[k])
    ensures !Contains(LocString(loc), "undefined")
  {
    var joined := Join(loc.tags, " ");
    PieceLacksUndefined(loc.name);
    forall k | 0 <= k < |loc.tags|
      ensures !Contains(ToLower(loc.tags[k]), "undefined")
    {
      PieceLacksUndefined(loc.tags[k]);
    }
    JoinedPartsExclude(loc.tags, "undefined");
    ToLowerConcat(loc.name + " ", joined);
    ToLowerConcat(loc.name, " ");
    assert LocString(loc) == ToLower(loc.name) + " " + ToLower(joined);
    ContainsAcrossSeparator(ToLower(loc.name), ' ', ToLower(joined), "undefined");
  }

  /** For such a location the bonus as written and the corrected bonus agree on every query. */
  lemma AsWrittenBonusAgrees(q: Args, loc: Location)
    requires CannotSpellUndefined(loc.name)
    requires forall k :: 0 <= k < |loc.tags| ==> CannotSpellUndefined(loc.tags[k])
    ensures DemandaBonusAsWritten(q, loc) == Contribution(DemandMatch, q, loc)
  {
    if q.demanda.None? {
      LocationLacksUndefined(loc);
    } else {
      AbsentDemandaMatchesUndefined(q);
    }
  }

  /** The score exactly as the callback computes it, with the bonus of line 100 as written. */
  function ScoreAsWritten(q: Args, loc: Location): int
  {
    Contribution(SevereCase, q, loc) + Contribution(MildCase, q, loc)
    + Contribution(Animals, q, loc) + Contribution(Documents, q, loc)
    + Contribution(Overnight, q, loc) + Contribution(Women, q, loc)
    + DemandaBonusAsWritten(q, loc)
  }

  /** The score as written differs from the modelled score by the difference of the two
      bonuses, and by nothing else. */
  lemma ScoreAsWrittenDiffers(q: Args, loc: Location)
    ensures ScoreAsWritten(q, loc) - Score(q, loc)
         == DemandaBonusAsWritten(q, loc) - Contribution(DemandMatch, q, loc)
  {
    ScoreSplit(q, loc);
  }
}
