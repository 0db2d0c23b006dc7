/**
 * The static knowledge base `diseases_info`: for each disease, its symptom
 * phrases and its prevention phrases. A Python dict keeps insertion order, so
 * the table is an ordered sequence; the order is the one the driver iterates in.
 */
module KnowledgeBase {
  import opened Wrappers

  datatype DiseaseEntry = DiseaseEntry(name: string, symptoms: seq<string>, prevention: seq<string>)

  const Alzheimers: DiseaseEntry := DiseaseEntry("Alzheimer's",
    ["memory loss", "confusion", "disorientation", "difficulty speaking"],
    ["mental exercises", "healthy diet", "regular physical activity", "social engagement"])
  const ParkinsonsDisease: DiseaseEntry := DiseaseEntry("Parkinson's Disease",
    ["tremors", "stiff muscles", "slowed movement", "balance problems"],
    ["exercise", "healthy diet", "avoiding toxins", "stress management"])
  const Asthma: DiseaseEntry := DiseaseEntry("Asthma",
    ["shortness of breath", "wheezing", "coughing", "tight chest"],
    ["avoiding allergens", "medication", "monitoring triggers", "regular physical activity"])
  const BreastCancer: DiseaseEntry := DiseaseEntry("Breast Cancer",
    ["lumps in breast", "change in breast shape", "skin irritation", "nipple discharge"],
    ["regular screenings", "healthy diet", "exercise", "limiting alcohol intake"])
  const Diabetes: DiseaseEntry := DiseaseEntry("Diabetes",
    ["increased thirst", "frequent urination", "extreme hunger", "fatigue"],
    ["healthy diet", "regular exercise", "weight management", "blood sugar monitoring"])
  const MultipleSclerosis: DiseaseEntry := DiseaseEntry("Multiple Sclerosis",
    ["numbness", "muscle weakness", "vision problems", "coordination issues"],
    ["healthy diet", "regular exercise", "avoiding smoking", "managing stress"])
  const Psoriasis: DiseaseEntry := DiseaseEntry("Psoriasis",
    ["red patches", "itching", "dry skin", "scaly patches"],
    ["moisturizing skin", "avoiding triggers", "stress management", "healthy diet"])
  const UlcerativeColitis: DiseaseEntry := DiseaseEntry("Ulcerative Colitis",
    ["abdominal pain", "bloody stool", "diarrhea", "weight loss"],
    ["healthy diet", "stress management", "medication adherence", "avoidance of trigger foods"])
  const Leukemia: DiseaseEntry := DiseaseEntry("Leukemia",
    ["fatigue", "unexplained weight loss", "frequent infections", "easy bruising"],
    ["avoiding toxins", "healthy lifestyle", "regular medical check-ups"])
  const HivAids: DiseaseEntry := DiseaseEntry("HIV & AIDS",
    ["fatigue", "swollen lymph nodes", "night sweats", "weight loss"],
    ["safe sex practices", "needle sharing prevention", "HIV testing", "pre-exposure prophylaxis (PrEP)"])
  const Covid19: DiseaseEntry := DiseaseEntry("COVID-19",
    ["fever", "cough", "shortness of breath", "loss of taste or smell"],
    ["hand hygiene", "mask-wearing", "social distancing", "vaccination"])
  const Anxiety: DiseaseEntry := DiseaseEntry("Anxiety",
    ["restlessness", "rapid heart rate", "sweating", "difficulty concentrating"],
    ["stress management", "physical exercise", "adequate sleep", "cognitive-behavioral therapy"])
  const AtopicDermatitis: DiseaseEntry := DiseaseEntry("Atopic Dermatitis",
    ["itchy skin", "dry skin", "rashes", "skin infections"],
    ["moisturizing skin", "avoiding triggers", "gentle skin care products", "stress management"])
  const Cancer: DiseaseEntry := DiseaseEntry("Cancer",
    ["fatigue", "weight loss", "pain", "changes in appetite"],
    ["healthy diet", "avoid tobacco", "regular screenings", "physical activity"])
  const CardiovascularHealth: DiseaseEntry := DiseaseEntry("Cardiovascular Health",
    ["chest pain", "shortness of breath", "palpitations", "fatigue"],
    ["healthy diet", "regular exercise", "blood pressure management", "limiting alcohol intake"])
  const Headache: DiseaseEntry := DiseaseEntry("Headache",
    ["pain in head", "sensitivity to light", "nausea", "dizziness"],
    ["avoiding triggers", "stress management", "adequate sleep", "regular exercise"])
  const Migraine: DiseaseEntry := DiseaseEntry("Migraine",
    ["severe headache", "nausea", "sensitivity to light", "visual disturbances"],
    ["avoiding triggers", "medication", "stress management", "regular sleep patterns"])
  const MentalHealth: DiseaseEntry := DiseaseEntry("Mental Health",
    ["mood swings", "anxiety", "depression", "fatigue"],
    ["stress management", "therapy", "exercise", "healthy relationships"])
  const SexualHealth: DiseaseEntry := DiseaseEntry("Sexual Health",
    ["pain during intercourse", "reduced libido", "erectile dysfunction", "fertility issues"],
    ["safe sex practices", "regular health check-ups", "communication with partner", "stress management"])

  const Diseases: seq<DiseaseEntry> := [
    Alzheimers,
    ParkinsonsDisease,
    Asthma,
    BreastCancer,
    Diabetes,
    MultipleSclerosis,
    Psoriasis,
    UlcerativeColitis,
    Leukemia,
    HivAids,
    Covid19,
    Anxiety,
    AtopicDermatitis,
    Cancer,
    CardiovascularHealth,
    Headache,
    Migraine,
    MentalHealth,
    SexualHealth
  ]

  /** No name is the key of two entries: what makes a table a dictionary. */
  ghost predicate NamesDistinct(table: seq<DiseaseEntry>) {
    forall i, j :: 0 <= i < j < |table| ==> table[i].name != table[j].name
  }

  /** The table holds nineteen diseases, under distinct names. */
  lemma TableShape()
    ensures |Diseases| == 19
    ensures NamesDistinct(Diseases)
  {
    assert forall i, j :: 0 <= i < j < |Diseases| ==> Diseases[i].name != Diseases[j].name;
  }

  /** Every phrase of the table, names included, is non-empty. */
  lemma PhrasesNonEmpty()
    ensures forall i :: 0 <= i < |Diseases| ==> |Diseases[i].name| > 0
    ensures forall i, k :: 0 <= i < |Diseases| && 0 <= k < |Diseases[i].symptoms| ==> |Diseases[i].symptoms[k]| > 0
    ensures forall i, k :: 0 <= i < |Diseases| && 0 <= k < |Diseases[i].prevention| ==> |Diseases[i].prevention[k]| > 0
  {
  }

  function IndexFrom(table: seq<DiseaseEntry>, name: string, from: nat): (r: Option<nat>)
    ensures r.Some? ==> from <= r.value < |table| && table[r.value].name == name
    ensures r.Some? ==> forall j :: from <= j < r.value ==> table[j].name != name
    ensures r.None? ==> forall j :: from <= j < |table| ==> table[j].name != name
    decreases |table| - from
  {
    if from >= |table| then None
    else if table[from].name == name then Some(from)
    else IndexFrom(table, name, from + 1)
  }

  /** Position of the first entry of `table` under key `name`; `None` when there is none. */
  function IndexIn(table: seq<DiseaseEntry>, name: string): (r: Option<nat>)
    ensures r.Some? ==> r.value < |table| && table[r.value].name == name
    ensures r.Some? ==> forall j :: 0 <= j < r.value ==> table[j].name != name
    ensures r.None? <==> forall j :: 0 <= j < |table| ==> table[j].name != name
  {
    IndexFrom(table, name, 0)
  }

  /** In a table with distinct names, each key is found at its own position. */
  lemma IndexInEntry(table: seq<DiseaseEntry>, j: nat)
    requires NamesDistinct(table) && j < |table|
    ensures IndexIn(table, table[j].name) == Some(j)
  {
  }

  /** `diseases_info[name]`: the entry for key `name`, or `None` where Python raises `KeyError`. */
  function Lookup(name: string): (r: Option<DiseaseEntry>)
    ensures r.None? <==> forall j :: 0 <= j < |Diseases| ==> Diseases[j].name != name
    ensures forall j :: 0 <= j < |Diseases| && Diseases[j].name == name ==> r == Some(Diseases[j])
  {
    TableShape();
    match IndexIn(Diseases, name)
    case None => None
    case Some(j) => Some(Diseases[j])
  }
}
