/**
 * The treatment advice lookup (`class Treatment`): an exact, case-sensitive
 * match of the injury name against a fixed table, with a general fallback.
 * A treatment's two fields are never reassigned, so it is a value.
 */
module Treatments {
  import opened Injuries

  datatype Treatment = Treatment(injuryType: string, treatmentSuggestion: string)

  /** The text for a name the table does not list. */
  const Fallback: string := "No specific treatment found. Consult a healthcare provider for proper care."

  /** The opening words of the "ACL Tear" text. */
  const AclTearOpening: string := "Stop playing immediately"

  /**
   * The labels and texts of the `switch (injuryName)` in `getTreatment`,
   * in the order of its `case` labels (Java requires the labels to differ).
   */
  const Table: seq<(string, string)> := [
    ("Quadriceps Contusion",
     "Rest from impact activities, apply ice for 15–20 minutes every 2–3 hours, gently stretch as tolerated, and avoid massaging deep bruises early on."),
    ("Hamstring Strain Grade 2",
     "Stop activity immediately, use RICE (Rest, Ice, Compression, Elevation), avoid sprinting and aggressive stretching, and begin guided physiotherapy once pain decreases."),
    ("Achilles Tendinitis",
     "Reduce running/jumping, apply ice after activity, use heel lifts or supportive shoes, perform eccentric calf strengthening, and see a sports doctor if pain persists."),
    ("Calf Muscle Pull",
     "Rest from running, apply ice during the first 48 hours, use compression bandage, elevate the leg, and gradually return with gentle stretching and strengthening."),
    ("High Ankle Sprain",
     "Avoid weight-bearing, use crutches if needed, apply ice and compression, keep the ankle elevated, and seek medical evaluation due to longer recovery risk."),
    ("Ankle Fracture",
     "Do not walk on the ankle, immobilize it, avoid trying to straighten it, and go to the emergency department or orthopedic specialist immediately."),
    ("ACL Tear",
     AclTearOpening + ", apply ice and compression to reduce swelling, keep the leg elevated, use crutches if needed, and consult an orthopedic surgeon promptly."),
    ("Meniscus Tear",
     "Avoid twisting or deep squats, apply ice for pain and swelling, use a knee brace if advised, and see a specialist to decide between rehab and possible surgery."),
    ("Plantar Fasciitis",
     "Reduce standing/running time, stretch the calf and plantar fascia regularly, use supportive shoes or orthotics, ice the heel after activity, and consider physiotherapy."),
    ("Metatarsal Stress Fracture",
     "Stop impact sports, use stiff-soled shoes or a boot as recommended, avoid running/jumping, and consult a doctor for imaging and load-management plan."),
    ("Compartment Syndrome",
     "This can be an emergency—stop activity immediately, keep the leg at heart level (not elevated), and seek urgent medical care, especially if pain is severe with numbness."),
    ("Tibial Stress Reaction",
     "Cut back running volume, avoid hard surfaces, use cross-training with low impact (bike/swim), and gradually reload the shin under medical or physio supervision."),
    ("Tennis Elbow",
     "Rest from gripping/lifting heavy objects, apply ice to the outside of the elbow, use a counterforce strap if advised, and follow eccentric forearm strengthening."),
    ("Golfer's Elbow",
     "Reduce activities that stress the inside of the elbow, apply ice, gently stretch the wrist flexors, and start a strengthening program guided by a therapist."),
    ("Rotator Cuff Tear",
     "Avoid overhead lifting and throwing, apply ice for pain, use a sling only short-term if needed, and see an orthopedic/shoulder specialist for imaging and rehab or surgery plan."),
    ("Frozen Shoulder",
     "Keep the shoulder gently moving within pain limits, use heat before stretching and ice after, and follow a long-term physiotherapy program; consult a doctor for pain control."),
    ("Wrist Sprain",
     "Rest from weight-bearing on the wrist, apply ice 10–15 minutes several times per day, use a wrist brace for support, and avoid heavy lifting until pain and strength improve."),
    ("Carpal Tunnel Syndrome",
     "Use a night splint to keep the wrist neutral, avoid prolonged wrist flexion, take breaks from repetitive hand tasks, and see a doctor if numbness or weakness continues."),
    ("Femur Fracture",
     "This is a medical emergency—do not move the leg unnecessarily, keep the person still, support the leg, and call emergency services immediately."),
    ("IT Band Syndrome",
     "Reduce running, especially downhill, use ice on the outside of the knee/hip after activity, foam-roll the IT band and surrounding muscles, and strengthen hip abductors."),
    ("Biceps Tendinitis",
     "Avoid overhead or heavy lifting, apply ice to the front of the shoulder, correct lifting/throwing technique, and follow a shoulder and scapular strengthening program."),
    ("Triceps Strain",
     "Rest from pushing/pressing movements, use ice in the first 48 hours, apply light compression, and gradually add stretching and strengthening once pain decreases."),
    ("AC Joint Separation",
     "Use a sling for comfort, apply ice on top of the shoulder, avoid overhead or cross-body movements early on, and see a doctor to grade the injury and guide return-to-sport."),
    ("Patellar Tendinitis",
     "Reduce jumping and running, apply ice after training, use a patellar strap if recommended, and start eccentric quadriceps exercises and hip strengthening."),
    ("Achilles Rupture",
     "You may feel a sudden pop—do not walk on the leg, keep the ankle supported, and go to emergency care or a specialist immediately for surgical/non-surgical management."),
    ("Anterior Ankle Impingement",
     "Avoid deep squats and repeated dorsiflexion, apply ice after activity, work on ankle mobility and calf flexibility, and consult a sports clinician if pain persists.")
  ]

  /** The text of the first entry of `table` labelled `name`, or the fallback when there is none. */
  function SuggestionIn(table: seq<(string, string)>, name: string): string
  {
    if table == [] then Fallback
    else if table[0].0 == name then table[0].1
    else SuggestionIn(table[1..], name)
  }

  /** `getTreatment(injuryName)`: the advice for that name, labelled with the name as given. */
  function GetTreatment(injuryName: string): (t: Treatment)
    ensures t.injuryType == injuryName
    ensures |t.treatmentSuggestion| > 0
  {
    TableTextsNonEmpty();
    SuggestionInIsSomeText(Table, injuryName);
    Treatment(injuryName, SuggestionIn(Table, injuryName))
  }

  /** `getTreatmentSuggestion()` gives back the text the treatment was built with. */
  function GetTreatmentSuggestion(t: Treatment): (r: string)
    ensures forall name, text :: t == Treatment(name, text) ==> r == text
  {
    t.treatmentSuggestion
  }

  lemma TableTextsNonEmpty()
    ensures forall i :: 0 <= i < |Table| ==> |Table[i].1| > 0 && Table[i].1 != Fallback
  {
  }

  /**
   * When no entry's text is the fallback, the lookup answers the fallback
   * exactly when no entry carries the label.
   */
  lemma {:induction false} SuggestionInFallback(table: seq<(string, string)>, name: string)
    requires forall i :: 0 <= i < |table| ==> table[i].1 != Fallback
    ensures SuggestionIn(table, name) == Fallback <==> forall i :: 0 <= i < |table| ==> table[i].0 != name
  {
    if table != [] && table[0].0 != name {
      SuggestionInFallback(table[1..], name);
      assert forall i :: 1 <= i < |table| ==> table[i] == table[1..][i - 1];
    }
  }

  /** The lookup always answers the fallback or the text of some entry. */
  lemma {:induction false} SuggestionInIsSomeText(table: seq<(string, string)>, name: string)
    ensures SuggestionIn(table, name) == Fallback || exists i :: 0 <= i < |table| && SuggestionIn(table, name) == table[i].1
  {
    if table != [] && table[0].0 != name {
      SuggestionInIsSomeText(table[1..], name);
      if SuggestionIn(table, name) != Fallback {
        var i :| 0 <= i < |table[1..]| && SuggestionIn(table, name) == table[1..][i].1;
        assert table[i + 1] == table[1..][i];
      }
    }
  }

  /** The lookup returns the text of the first entry labelled `name`. */
  lemma {:induction false} SuggestionInFirst(table: seq<(string, string)>, name: string, k: nat)
    requires k < |table| && table[k].0 == name
    requires forall j :: 0 <= j < k ==> table[j].0 != name
    ensures SuggestionIn(table, name) == table[k].1
  {
    if k > 0 {
      SuggestionInFirst(table[1..], name, k - 1);
    }
  }

  /** The table's labels are exactly the catalog's injury types, in catalog order. */
  lemma TableCoversCatalog()
    ensures |Table| == |CommonInjuries|
    ensures forall i :: 0 <= i < |Table| ==> Table[i].0 == CommonInjuries[i].injuryType
  {
  }

  /** Every catalog injury's type is answered with its own table entry. */
  lemma CatalogTreatments()
    ensures forall k :: 0 <= k < |CommonInjuries| ==>
      GetTreatment(CommonInjuries[k].injuryType).treatmentSuggestion == Table[k].1
  {
    TableCoversCatalog();
    DistinctTypes();
    forall k | 0 <= k < |CommonInjuries|
      ensures GetTreatment(CommonInjuries[k].injuryType).treatmentSuggestion == Table[k].1
    {
      SuggestionInFirst(Table, CommonInjuries[k].injuryType, k);
    }
  }

  /** A name is answered with the fallback exactly when no catalog injury has that type. */
  lemma FallbackIffNotInCatalog(injuryName: string)
    ensures GetTreatment(injuryName).treatmentSuggestion == Fallback <==>
      forall i :: 0 <= i < |CommonInjuries| ==> CommonInjuries[i].injuryType != injuryName
  {
    TableTextsNonEmpty();
    SuggestionInFallback(Table, injuryName);
    TableCoversCatalog();
  }

  /** The advice for "ACL Tear" is its own entry, which starts with "Stop playing immediately". */
  lemma AclTearAdvice(name: string)
    requires name == "ACL Tear"
    ensures var s := GetTreatment(name).treatmentSuggestion;
      s == Table[6].1 && |s| >= 24 && s[..24] == "Stop playing immediately"
  {
    AclTearIsFirstLabel(name);
    SuggestionInFirst(Table, name, 6);
    AclTearText();
  }

  lemma AclTearIsFirstLabel(name: string)
    requires name == "ACL Tear"
    ensures Table[6].0 == name
    ensures forall j :: 0 <= j < 6 ==> Table[j].0 != name
  {
    assert forall j :: 0 <= j < 6 ==> Table[j].0[1] != name[1];
  }

  lemma AclTearText()
    ensures |Table[6].1| >= 24 && Table[6].1[..24] == "Stop playing immediately"
  {
    assert |AclTearOpening| == 24;
    assert Table[6].1[..|AclTearOpening|] == AclTearOpening;
  }

  /** Every label starts with an upper-case letter other than N. */
  lemma TableLabelsInitials()
    ensures forall i :: 0 <= i < |Table| ==>
      |Table[i].0| > 0 && 'A' <= Table[i].0[0] <= 'Z' && Table[i].0[0] != 'N'
  {
  }

  /**
   * Matching is exact and case-sensitive: a name starting with a lower-case
   * letter (such as "acl tear") or with N (such as "Nonexistent Injury")
   * gets the fallback.
   */
  lemma UnknownNamesFallBack(name: string)
    requires |name| > 0 && ('a' <= name[0] <= 'z' || name[0] == 'N')
    ensures GetTreatment(name).treatmentSuggestion == Fallback
  {
    TableTextsNonEmpty();
    TableLabelsInitials();
    SuggestionInFallback(Table, name);
  }
}
