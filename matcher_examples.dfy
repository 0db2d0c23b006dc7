/** Worked cases of the `\b` rule and of `check_disease_info` on concrete articles. */
module MatcherExamples {
  import opened Wrappers
  import opened Text
  import opened KnowledgeBase
  import opened DiseaseMatcher

  /** "fatigue" does not match inside "fatigued". */
  lemma FatigueNotInFatigued()
    ensures !Occurs("fatigued", "fatigue")
  {
    var t := "fatigued";
    forall i: nat ensures !MatchAt(t, "fatigue", i) {
      if i == 0 {
        NoMatchBeforeWordChar(t, "fatigue", 0);
      } else if i == 1 {
        NoMatchAfterWordChar(t, "fatigue", 1);
      }
    }
  }

  /** "Alzheimer's" does not match at the front of "Alzheimer'sXYZ". */
  lemma AlzheimersNotInLongerWord()
    ensures !Occurs("Alzheimer'sXYZ", "Alzheimer's")
  {
    var t, p := "Alzheimer'sXYZ", "Alzheimer's";
    forall i: nat ensures !MatchAt(t, p, i) {
      if i == 0 {
        NoMatchBeforeWordChar(t, p, 0);
      } else if i <= 3 {
        NoMatchAfterWordChar(t, p, i);
      }
    }
  }

  const PrEP := "pre-exposure prophylaxis (PrEP)"

  /** The prevention phrase that ends in ")" does not even match a text that is exactly that phrase. */
  lemma PrEPDoesNotMatchItself()
    ensures Diseases[9].prevention[3] == PrEP
    ensures !Occurs(PrEP, PrEP)
  {
    forall i: nat ensures !MatchAt(PrEP, PrEP, i) {
      if i == 0 {
        assert !IsBoundary(PrEP, |PrEP|);
      }
    }
  }

  /** It matches only when a word character follows the ")". */
  lemma PrEPMatchesBeforeWordChar()
    ensures Occurs(PrEP + "users", PrEP)
  {
    var t := PrEP + "users";
    assert t[0..|PrEP|] == PrEP;
    assert MatchAt(t, PrEP, 0);
  }

  /** Letters that `PrEP` lacks in either case. */
  lemma PrEPLacksLetters()
    ensures forall j :: 0 <= j < |PrEP| ==> Lower(PrEP[j]) != 'f' && Lower(PrEP[j]) != 'n' && Lower(PrEP[j]) != 'v' && Lower(PrEP[j]) != 'w'
  {
  }

  lemma PrEPNamesNoHivName()
    ensures !Occurs(PrEP, HivAids.name)
  {
    PrEPLacksLetters();
    assert HivAids.name[2] == 'V';
    MissingCharBlocks(PrEP, HivAids.name, 2);
  }

  lemma PrEPNamesNoHivSymptom()
    ensures forall k :: 0 <= k < |HivAids.symptoms| ==> !Occurs(PrEP, HivAids.symptoms[k])
  {
    var ss := HivAids.symptoms;
    PrEPLacksLetters();
    assert ss[0][0] == 'f' && ss[1][1] == 'w' && ss[2][0] == 'n' && ss[3][0] == 'w';
    MissingCharBlocks(PrEP, ss[0], 0);
    MissingCharBlocks(PrEP, ss[1], 1);
    MissingCharBlocks(PrEP, ss[2], 0);
    MissingCharBlocks(PrEP, ss[3], 0);
  }

  lemma PrEPNamesNoOtherHivPrevention()
    ensures forall k :: 0 <= k < 3 ==> !Occurs(PrEP, HivAids.prevention[k])
  {
    var ps := HivAids.prevention;
    PrEPLacksLetters();
    assert ps[0][2] == 'f' && ps[1][0] == 'n' && ps[2][2] == 'V';
    MissingCharBlocks(PrEP, ps[0], 2);
    MissingCharBlocks(PrEP, ps[1], 0);
    MissingCharBlocks(PrEP, ps[2], 2);
  }

  /**
   * An article that reads exactly "pre-exposure prophylaxis (PrEP)" does not
   * count as mentioning a prevention measure of HIV & AIDS.
   */
  lemma PrEPArticleFindsNothing()
    ensures CheckDiseaseInfo(PrEP, "HIV & AIDS") == Success(DiseaseCheck(false, false, false))
  {
    assert Diseases[9] == HivAids && HivAids.name == "HIV & AIDS";
    PrEPNamesNoHivName();
    PrEPNamesNoHivSymptom();
    PrEPNamesNoOtherHivPrevention();
    PrEPDoesNotMatchItself();
    assert forall k :: 0 <= k < |Diseases[9].prevention| ==> !Occurs(PrEP, Diseases[9].prevention[k]);
  }

  const AsthmaNote := "Asthma: avoiding allergens."

  /** Letters that `AsthmaNote` lacks in either case. */
  lemma AsthmaNoteLacksLetters()
    ensures forall j :: 0 <= j < |AsthmaNote| ==> Lower(AsthmaNote[j]) != 'b' && Lower(AsthmaNote[j]) != 'w' && Lower(AsthmaNote[j]) != 'c'
  {
  }

  lemma AsthmaNoteNamesAsthma()
    ensures Occurs(AsthmaNote, "Asthma")
  {
    assert AsthmaNote[0..6] == "Asthma" && AsthmaNote[6] == ':';
    assert MatchAt(AsthmaNote, "Asthma", 0);
  }

  lemma AsthmaNoteNamesAllergens()
    ensures Occurs(AsthmaNote, "avoiding allergens")
  {
    assert AsthmaNote[8..26] == "avoiding allergens" && AsthmaNote[7] == ' ' && AsthmaNote[26] == '.';
    assert MatchAt(AsthmaNote, "avoiding allergens", 8);
  }

  lemma AsthmaNoteNoSymptom(k: nat)
    requires k < |Diseases[2].symptoms|
    ensures !Occurs(AsthmaNote, Diseases[2].symptoms[k])
  {
    var s := Diseases[2].symptoms;
    AsthmaNoteLacksLetters();
    if k == 0 {
      assert s[0][13] == 'b';
      MissingCharBlocks(AsthmaNote, s[0], 13);
    } else if k == 1 {
      assert s[1][0] == 'w';
      MissingCharBlocks(AsthmaNote, s[1], 0);
    } else if k == 2 {
      assert s[2][0] == 'c';
      MissingCharBlocks(AsthmaNote, s[2], 0);
    } else {
      assert s[3][6] == 'c';
      MissingCharBlocks(AsthmaNote, s[3], 6);
    }
  }

  /** The disease and a prevention measure are named, no symptom is. */
  lemma AsthmaNoteFindings()
    ensures CheckDiseaseInfo(AsthmaNote, "Asthma") == Success(DiseaseCheck(true, false, true))
  {
    assert Diseases[2].name == "Asthma";
    assert Diseases[2].prevention[0] == "avoiding allergens";
    AsthmaNoteNamesAsthma();
    AsthmaNoteNamesAllergens();
    forall k | 0 <= k < |Diseases[2].symptoms| ensures !Occurs(AsthmaNote, Diseases[2].symptoms[k]) {
      AsthmaNoteNoSymptom(k);
    }
  }
}
