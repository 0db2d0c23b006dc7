/**
 * The disease matcher `check_disease_info`: for one disease of the knowledge
 * base, whether the article text names it, whether it mentions any of its
 * symptoms and whether it mentions any of its prevention measures, each as a
 * whole-word, case-insensitive search.
 */
module DiseaseMatcher {
  import opened Wrappers
  import opened Text
  import opened KnowledgeBase

  /** The triple `(disease_found, symptoms_found, prevention_found)`. */
  datatype DiseaseCheck = DiseaseCheck(diseaseFound: bool, symptomsFound: bool, preventionFound: bool)

  /** The dictionary lookup fails on a name that is not a key. */
  datatype LookupError = KeyError(key: string)

  /** `any(re.search(...) for phrase in phrases)`. */
  function AnyMatch(t: string, phrases: seq<string>): (r: bool)
    ensures r <==> exists k :: 0 <= k < |phrases| && Occurs(t, phrases[k])
  {
    if |phrases| == 0 then false
    else
      var rest := AnyMatch(t, phrases[1..]);
      assert forall k :: 1 <= k < |phrases| ==> phrases[k] == phrases[1..][k - 1];
      Search(t, phrases[0]).Some? || rest
  }

  /** The three searches for one table entry. */
  function Check(t: string, e: DiseaseEntry): (r: DiseaseCheck)
    ensures r.diseaseFound <==> Occurs(t, e.name)
    ensures r.symptomsFound <==> exists k :: 0 <= k < |e.symptoms| && Occurs(t, e.symptoms[k])
    ensures r.preventionFound <==> exists k :: 0 <= k < |e.prevention| && Occurs(t, e.prevention[k])
  {
    DiseaseCheck(Search(t, e.name).Some?, AnyMatch(t, e.symptoms), AnyMatch(t, e.prevention))
  }

  /** `check_disease_info(article_text, disease_name)`. */
  function CheckDiseaseInfo(t: string, name: string): (r: Result<DiseaseCheck, LookupError>)
    ensures r.Failure? <==> forall j :: 0 <= j < |Diseases| ==> Diseases[j].name != name
    ensures r.Failure? ==> r.error == KeyError(name)
    ensures forall j :: 0 <= j < |Diseases| && Diseases[j].name == name ==>
      && r.Success?
      && (r.value.diseaseFound <==> Occurs(t, name))
      && (r.value.symptomsFound <==> exists k :: 0 <= k < |Diseases[j].symptoms| && Occurs(t, Diseases[j].symptoms[k]))
      && (r.value.preventionFound <==> exists k :: 0 <= k < |Diseases[j].prevention| && Occurs(t, Diseases[j].prevention[k]))
  {
    match Lookup(name)
    case None => Failure(KeyError(name))
    case Some(e) => Success(Check(t, e))
  }

  // ---------------------------------------------------------------------
  // Properties

  /** Looking up a key of the table checks that key's own entry. */
  lemma CheckDiseaseInfoOfEntry(t: string, j: nat)
    requires j < |Diseases|
    ensures CheckDiseaseInfo(t, Diseases[j].name) == Success(Check(t, Diseases[j]))
  {
    TableShape();
    IndexInEntry(Diseases, j);
  }

  lemma {:induction false} CheckIgnoresCase(t: string, t': string, e: DiseaseEntry)
    requires FoldEqual(t, t')
    ensures Check(t, e) == Check(t', e)
  {
    OccursIgnoresCase(t, t', e.name, e.name);
    forall k | 0 <= k < |e.symptoms| ensures Occurs(t, e.symptoms[k]) == Occurs(t', e.symptoms[k]) {
      OccursIgnoresCase(t, t', e.symptoms[k], e.symptoms[k]);
    }
    forall k | 0 <= k < |e.prevention| ensures Occurs(t, e.prevention[k]) == Occurs(t', e.prevention[k]) {
      OccursIgnoresCase(t, t', e.prevention[k], e.prevention[k]);
    }
  }

  /** The result does not depend on the letter case of the article text. */
  lemma {:induction false} CheckDiseaseInfoIgnoresCase(t: string, t': string, name: string)
    requires FoldEqual(t, t')
    ensures CheckDiseaseInfo(t, name) == CheckDiseaseInfo(t', name)
  {
    match Lookup(name)
    case None =>
    case Some(e) => CheckIgnoresCase(t, t', e);
  }

  /** The key itself is looked up exactly: a name in another letter case raises `KeyError`. */
  lemma KeyLookupIsCaseSensitive(t: string)
    ensures CheckDiseaseInfo(t, "asthma") == Failure(KeyError("asthma"))
    ensures CheckDiseaseInfo(t, "Asthma").Success?
  {
    assert Diseases[2].name == "Asthma";
  }

  /** An empty article finds nothing, for every disease of the table. */
  lemma {:induction false} EmptyTextFindsNothing(name: string)
    requires exists j :: 0 <= j < |Diseases| && Diseases[j].name == name
    ensures CheckDiseaseInfo("", name) == Success(DiseaseCheck(false, false, false))
  {
    var j :| 0 <= j < |Diseases| && Diseases[j].name == name;
    NothingOccursInEmptyText(name);
    forall k | 0 <= k < |Diseases[j].symptoms| ensures !Occurs("", Diseases[j].symptoms[k]) {
      NothingOccursInEmptyText(Diseases[j].symptoms[k]);
    }
    forall k | 0 <= k < |Diseases[j].prevention| ensures !Occurs("", Diseases[j].prevention[k]) {
      NothingOccursInEmptyText(Diseases[j].prevention[k]);
    }
  }
}
