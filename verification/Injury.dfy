/**
 * The fixed catalog of common sports injuries (`class Injury`) and the
 * lookups over it. An injury's four fields are final, so it is a value.
 */
module Injuries {
  import opened JavaTypes
  import opened BodyParts

  datatype Injury = Injury(injuryType: string, bodyPart: BodyPart, movable: bool, athleteDescription: string)

  /** `COMMON_INJURIES`: twenty-six entries, in this order. */
  const CommonInjuries: seq<Injury> := [
    Injury("Quadriceps Contusion", THIGH, true, "Deep bruise from direct impact. Can walk but with pain."),
    Injury("Hamstring Strain Grade 2", HAMSTRING, true, "Partial muscle tear. Pain when bending knee or stretching."),
    Injury("Achilles Tendinitis", ACHILLES, true, "Morning stiffness and pain along the back of heel."),
    Injury("Calf Muscle Pull", CALF, true, "Sudden sharp pain during push-off. Can't run properly."),
    Injury("High Ankle Sprain", ANKLE, false, "Pain above ankle, between tibia and fibula. Very unstable."),
    Injury("Ankle Fracture", ANKLE, false, "Broken bone in ankle. Can't bear any weight at all."),
    Injury("ACL Tear", KNEE, false, "Knee gave out with popping sound. Immediate swelling."),
    Injury("Meniscus Tear", KNEE, true, "Locking/catching sensation. Pain when twisting knee."),
    Injury("Plantar Fasciitis", FOOT, true, "Heel pain especially first steps in morning."),
    Injury("Metatarsal Stress Fracture", FOOT, false, "Pain in middle of foot. Worse with activity."),
    Injury("Compartment Syndrome", SHIN, false, "Intense pressure and pain. Numbness in foot."),
    Injury("Tibial Stress Reaction", SHIN, true, "Pain along shin bone that worsens with exercise."),
    Injury("Tennis Elbow", ELBOW, true, "Pain on outside of elbow when gripping or lifting."),
    Injury("Golfer's Elbow", ELBOW, true, "Pain on inside of elbow, worse with wrist flexion."),
    Injury("Rotator Cuff Tear", SHOULDER, true, "Pain when lifting arm overhead. Weakness."),
    Injury("Frozen Shoulder", SHOULDER, false, "Stiffness and pain. Gradually losing range of motion."),
    Injury("Wrist Sprain", WRIST, true, "Pain with movement, especially bending backward."),
    Injury("Carpal Tunnel Syndrome", WRIST, true, "Numbness/tingling in fingers, especially at night."),
    Injury("Femur Fracture", LEG, false, "Severe thigh pain. Leg appears deformed."),
    Injury("IT Band Syndrome", LEG, true, "Pain on outside of knee/hip. Worse with running."),
    Injury("Biceps Tendinitis", ARM, true, "Pain in front of shoulder when lifting."),
    Injury("Triceps Strain", ARM, true, "Pain in back of upper arm when extending elbow."),
    Injury("AC Joint Separation", SHOULDER, false, "Bump on top of shoulder. Pain with arm movement."),
    Injury("Patellar Tendinitis", KNEE, true, "Pain below kneecap, especially when jumping."),
    Injury("Achilles Rupture", ACHILLES, false, "Sudden pop in calf. Can't push off foot."),
    Injury("Anterior Ankle Impingement", ANKLE, true, "Pain in front of ankle when pointing toes up.")
  ]

  /** The entries of `s` filed under `part`, in the order of `s`. */
  function Filter(s: seq<Injury>, part: BodyPart): seq<Injury>
  {
    if s == [] then []
    else Filter(s[..|s| - 1], part) + (if s[|s| - 1].bodyPart == part then [s[|s| - 1]] else [])
  }

  /** `toString()`: the type, " : ", then the athlete's description. */
  function ToString(i: Injury): (r: string)
    ensures |r| == |i.injuryType| + 3 + |i.athleteDescription|
    ensures r[..|i.injuryType|] == i.injuryType
    ensures r[|i.injuryType|..] == " : " + i.athleteDescription
  {
    i.injuryType + " : " + i.athleteDescription
  }

  /** Whether `s` holds the separator " : " at position `k`. */
  predicate SeparatorAt(s: string, k: nat)
  {
    k + 3 <= |s| && s[k..k + 3] == " : "
  }

  /** The first position at or after `k` where `s` holds the separator, if any. */
  function FirstSeparator(s: string, k: nat): (r: Option<nat>)
    requires k <= |s|
    ensures r.Some? ==> k <= r.value && SeparatorAt(s, r.value)
    ensures r.Some? ==> forall j :: k <= j < r.value ==> !SeparatorAt(s, j)
    ensures r.None? ==> forall j :: k <= j <= |s| ==> !SeparatorAt(s, j)
    decreases |s| - k
  {
    if k + 3 > |s| then None
    else if s[k..k + 3] == " : " then Some(k)
    else FirstSeparator(s, k + 1)
  }

  /** Reading a displayed injury back: the text before the first " : " and the text after it. */
  function ParseDisplay(s: string): Option<(string, string)>
  {
    match FirstSeparator(s, 0)
    case None => None
    case Some(k) => Some((s[..k], s[k + 3..]))
  }

  /**
   * `toString()` loses nothing when the type has no colon: reading the
   * display back gives the type and the description.
   */
  lemma DisplayRoundTrip(i: Injury)
    requires ':' !in i.injuryType
    ensures ParseDisplay(ToString(i)) == Some((i.injuryType, i.athleteDescription))
  {
    var s := ToString(i);
    var n := |i.injuryType|;
    forall j | 0 <= j < n
      ensures !SeparatorAt(s, j)
    {
      if j + 1 < n {
        assert s[j + 1] == i.injuryType[j + 1];
      } else {
        assert s[j + 1] == ' ';
      }
    }
    assert SeparatorAt(s, n);
    FirstSeparatorFinds(s, 0, n);
  }

  /** The search from `k` stops at `n` when `n` is the first separator at or after `k`. */
  lemma {:induction false} FirstSeparatorFinds(s: string, k: nat, n: nat)
    requires k <= n && SeparatorAt(s, n)
    requires forall j :: k <= j < n ==> !SeparatorAt(s, j)
    ensures FirstSeparator(s, k) == Some(n)
    decreases n - k
  {
    if k < n {
      assert !SeparatorAt(s, k);
      FirstSeparatorFinds(s, k + 1, n);
    }
  }

  /** `getAllInjuries()`: a new array holding the catalog in order. */
  method GetAllInjuries() returns (a: array<Injury>)
    ensures fresh(a) && a[..] == CommonInjuries
  {
    a := new Injury[|CommonInjuries|](i requires 0 <= i < |CommonInjuries| => CommonInjuries[i]);
  }

  /**
   * `getInjuriesByBodyPart(part)`: the whole catalog for `null`, otherwise
   * the entries filed under `part`, in catalog order.
   */
  method GetInjuriesByBodyPart(part: Option<BodyPart>) returns (r: seq<Injury>)
    ensures part.None? ==> r == CommonInjuries
    ensures part.Some? ==> r == Filter(CommonInjuries, part.value)
  {
    if part.None? {
      return CommonInjuries;
    }
    r := Collect(CommonInjuries, part.value);
  }

  /** The loop of `getInjuriesByBodyPart`: one pass over `catalog`, appending each entry filed under `part`. */
  method Collect(catalog: seq<Injury>, part: BodyPart) returns (r: seq<Injury>)
    ensures r == Filter(catalog, part)
  {
    r := [];
    var i := 0;
    while i < |catalog|
      invariant 0 <= i <= |catalog|
      invariant r == Filter(catalog[..i], part)
    {
      var injury := catalog[i];
      if injury.bodyPart == part {
        r := r + [injury];
      }
      assert catalog[..i + 1][..i] == catalog[..i];
      i := i + 1;
    }
    assert catalog[..i] == catalog;
  }

  /** The filter keeps exactly the entries filed under `part`, never more than it was given. */
  lemma {:induction false} FilterMembers(s: seq<Injury>, part: BodyPart)
    ensures |Filter(s, part)| <= |s|
    ensures forall x :: x in Filter(s, part) <==> x in s && x.bodyPart == part
  {
    if s != [] {
      FilterMembers(s[..|s| - 1], part);
      assert s == s[..|s| - 1] + [s[|s| - 1]];
    }
  }

  /** Filtering distributes over concatenation, so it keeps the relative order of the entries. */
  lemma {:induction false} FilterAppend(s: seq<Injury>, t: seq<Injury>, part: BodyPart)
    ensures Filter(s + t, part) == Filter(s, part) + Filter(t, part)
  {
    if t != [] {
      var u := t[..|t| - 1];
      assert (s + t)[..|s + t| - 1] == s + u;
      FilterAppend(s, u, part);
    } else {
      assert s + t == s;
    }
  }

  /** The number of indices of `parts` holding `q`. */
  function Occurrences(parts: seq<BodyPart>, q: BodyPart): nat
  {
    if parts == [] then 0 else (if parts[0] == q then 1 else 0) + Occurrences(parts[1..], q)
  }

  /** The sizes of the filters of `s` by each entry of `parts`, added up. */
  function FilterSizes(parts: seq<BodyPart>, s: seq<Injury>): nat
  {
    if parts == [] then 0 else |Filter(s, parts[0])| + FilterSizes(parts[1..], s)
  }

  lemma {:induction false} OccurrencesOfDistinct(parts: seq<BodyPart>, q: BodyPart)
    requires forall i, j :: 0 <= i < j < |parts| ==> parts[i] != parts[j]
    ensures Occurrences(parts, q) == if q in parts then 1 else 0
  {
    if parts != [] {
      OccurrencesOfDistinct(parts[1..], q);
      if parts[0] == q {
        assert q !in parts[1..] by {
          forall k | 0 <= k < |parts[1..]| ensures parts[1..][k] != q {
            assert parts[1..][k] == parts[k + 1];
          }
        }
      }
    }
  }

  lemma {:induction false} FilterSizesSnoc(parts: seq<BodyPart>, s: seq<Injury>, x: Injury)
    ensures FilterSizes(parts, s + [x]) == FilterSizes(parts, s) + Occurrences(parts, x.bodyPart)
  {
    if parts != [] {
      FilterSizesSnoc(parts[1..], s, x);
      assert (s + [x])[..|s + [x]| - 1] == s;
    }
  }

  lemma {:induction false} FilterSizesOfEmpty(parts: seq<BodyPart>)
    ensures FilterSizes(parts, []) == 0
  {
    if parts != [] {
      FilterSizesOfEmpty(parts[1..]);
    }
  }

  /** Filtering by every body part once splits any list of injuries into pieces that add up to it. */
  lemma {:induction false} FilterSizesPartition(s: seq<Injury>)
    ensures FilterSizes(BodyParts.Values, s) == |s|
  {
    if s == [] {
      FilterSizesOfEmpty(BodyParts.Values);
    } else {
      var init := s[..|s| - 1];
      FilterSizesPartition(init);
      assert s == init + [s[|s| - 1]];
      var x := s[|s| - 1];
      FilterSizesSnoc(BodyParts.Values, init, x);
      ValuesComplete(x.bodyPart);
      OccurrencesOfDistinct(BodyParts.Values, x.bodyPart);
      assert Occurrences(BodyParts.Values, x.bodyPart) == 1;
      assert FilterSizes(BodyParts.Values, init + [x]) == |init| + 1;
    }
  }

  /** The catalog has 26 entries, and the thirteen body-part filters partition it. */
  lemma CatalogPartition()
    ensures |CommonInjuries| == 26
    ensures FilterSizes(BodyParts.Values, CommonInjuries) == 26
  {
    FilterSizesPartition(CommonInjuries);
  }

  lemma CoveredBy(part: BodyPart, k: nat)
    requires k < |CommonInjuries| && CommonInjuries[k].bodyPart == part
    ensures |Filter(CommonInjuries, part)| >= 1
  {
    FilterMembers(CommonInjuries, part);
    assert CommonInjuries[k] in Filter(CommonInjuries, part);
  }

  /** Every body part has at least one catalog entry. */
  lemma EveryPartCovered(part: BodyPart)
    ensures |Filter(CommonInjuries, part)| >= 1
  {
    match part
    case THIGH => CoveredBy(part, 0);
    case HAMSTRING => CoveredBy(part, 1);
    case ACHILLES => CoveredBy(part, 2);
    case CALF => CoveredBy(part, 3);
    case ANKLE => CoveredBy(part, 4);
    case KNEE => CoveredBy(part, 6);
    case FOOT => CoveredBy(part, 8);
    case SHIN => CoveredBy(part, 10);
    case ELBOW => CoveredBy(part, 12);
    case SHOULDER => CoveredBy(part, 14);
    case WRIST => CoveredBy(part, 16);
    case LEG => CoveredBy(part, 18);
    case ARM => CoveredBy(part, 20);
  }

  lemma {:induction false} FilterPrefixStep(s: seq<Injury>, k: nat, part: BodyPart)
    requires k < |s|
    ensures Filter(s[..k + 1], part) == Filter(s[..k], part) + (if s[k].bodyPart == part then [s[k]] else [])
  {
    assert s[..k + 1][..k] == s[..k];
  }

  /** Filtering a prefix that stops short of the next entry filed under `part` changes nothing. */
  lemma {:induction false} FilterPrefixSkip(s: seq<Injury>, i: nat, j: nat, part: BodyPart)
    requires i <= j <= |s|
    requires forall k :: i <= k < j ==> s[k].bodyPart != part
    ensures Filter(s[..j], part) == Filter(s[..i], part)
  {
    if i < j {
      FilterPrefixSkip(s, i, j - 1, part);
      FilterPrefixStep(s, j - 1, part);
    }
  }

  /** The knee filter, as the catalog is written: ACL Tear, Meniscus Tear, Patellar Tendinitis. */
  lemma KneeInjuries()
    ensures Filter(CommonInjuries, KNEE) == [CommonInjuries[6], CommonInjuries[7], CommonInjuries[23]]
    ensures Filter(CommonInjuries, KNEE)[0].injuryType == "ACL Tear"
    ensures Filter(CommonInjuries, KNEE)[1].injuryType == "Meniscus Tear"
    ensures Filter(CommonInjuries, KNEE)[2].injuryType == "Patellar Tendinitis"
  {
    KneePositions();
    KneeAt(CommonInjuries);
  }

  /** The catalog files entries 6, 7 and 23 under the knee, and no others. */
  lemma KneePositions()
    ensures |CommonInjuries| == 26
    ensures forall k :: 0 <= k < 26 ==> (CommonInjuries[k].bodyPart == KNEE <==> k == 6 || k == 7 || k == 23)
  {
  }

  /** Any 26 entries with knee entries at positions 6, 7 and 23 only filter to those three. */
  lemma KneeAt(s: seq<Injury>)
    requires |s| == 26
    requires forall k :: 0 <= k < 26 ==> (s[k].bodyPart == KNEE <==> k == 6 || k == 7 || k == 23)
    ensures Filter(s, KNEE) == [s[6], s[7], s[23]]
  {
    KneeBefore24(s);
    FilterPrefixSkip(s, 24, 26, KNEE);
    assert s[..26] == s;
  }

  lemma KneeBefore24(s: seq<Injury>)
    requires |s| == 26
    requires forall k :: 0 <= k < 26 ==> (s[k].bodyPart == KNEE <==> k == 6 || k == 7 || k == 23)
    ensures Filter(s[..24], KNEE) == [s[6], s[7], s[23]]
  {
    KneeBefore8(s);
    FilterPrefixSkip(s, 8, 23, KNEE);
    FilterPrefixStep(s, 23, KNEE);
  }

  lemma KneeBefore8(s: seq<Injury>)
    requires |s| == 26
    requires forall k :: 0 <= k < 26 ==> (s[k].bodyPart == KNEE <==> k == 6 || k == 7 || k == 23)
    ensures Filter(s[..8], KNEE) == [s[6], s[7]]
  {
    assert s[..0] == [];
    FilterPrefixSkip(s, 0, 6, KNEE);
    FilterPrefixStep(s, 6, KNEE);
    FilterPrefixStep(s, 7, KNEE);
  }

  /** No two catalog entries share a type name. */
  lemma DistinctTypes()
    ensures forall i, j :: 0 <= i < j < |CommonInjuries| ==> CommonInjuries[i].injuryType != CommonInjuries[j].injuryType
  {
    DistinctFrom0();
    DistinctFrom3();
    DistinctFrom6();
    DistinctFrom10();
    DistinctFrom14();
    DistinctFrom19();
  }

  lemma DistinctFrom0()
    ensures forall i, j :: 0 <= i < 3 && i < j < |CommonInjuries| ==> CommonInjuries[i].injuryType != CommonInjuries[j].injuryType
  {
  }

  lemma DistinctFrom3()
    ensures forall i, j :: 3 <= i < 6 && i < j < |CommonInjuries| ==> CommonInjuries[i].injuryType != CommonInjuries[j].injuryType
  {
  }

  lemma DistinctFrom6()
    ensures forall i, j :: 6 <= i < 10 && i < j < |CommonInjuries| ==> CommonInjuries[i].injuryType != CommonInjuries[j].injuryType
  {
  }

  lemma DistinctFrom10()
    ensures forall i, j :: 10 <= i < 14 && i < j < |CommonInjuries| ==> CommonInjuries[i].injuryType != CommonInjuries[j].injuryType
  {
  }

  lemma DistinctFrom14()
    ensures forall i, j :: 14 <= i < 19 && i < j < |CommonInjuries| ==> CommonInjuries[i].injuryType != CommonInjuries[j].injuryType
  {
  }

  lemma DistinctFrom19()
    ensures forall i, j :: 19 <= i < 26 && i < j < |CommonInjuries| ==> CommonInjuries[i].injuryType != CommonInjuries[j].injuryType
  {
  }
}
