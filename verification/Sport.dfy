/** The sports a patient can pick (`class Sport`, `class SportsCollection`). */
module Sports {

  const SPORT_NAMES: seq<string> := ["Football", "Handball", "Basketball"]

  class Sport {
    var name: string

    /** The constructor stores the name as given. */
    constructor (name: string)
      ensures this.name == name
    {
      this.name := name;
    }

    function GetName(): string
      reads this
    {
      name
    }

    function ToString(): string
      reads this
    {
      name
    }
  }

  /** `getName` and `toString` both show the `name` field. */
  lemma NameAndToStringAgree(s: Sport)
    ensures s.GetName() == s.ToString() == s.name
  {
  }

  class SportsCollection {
    var sportsList: seq<Sport>

    /** The names of the listed sports, in list order. */
    function Names(): (r: seq<string>)
      reads this, sportsList
      ensures |r| == |sportsList|
      ensures forall i :: 0 <= i < |r| ==> r[i] == sportsList[i].name
    {
      seq(|sportsList|, i reads this, sportsList requires 0 <= i < |sportsList| => sportsList[i].name)
    }

    /** The constructor adds Football, Handball and Basketball, each a new `Sport`. */
    constructor ()
      ensures Names() == SPORT_NAMES
      ensures forall i :: 0 <= i < |sportsList| ==> fresh(sportsList[i])
    {
      var football := new Sport("Football");
      var handball := new Sport("Handball");
      var basketball := new Sport("Basketball");
      sportsList := [football, handball, basketball];
    }

    /** `getSportsList` gives the collection's own list. */
    method GetSportsList() returns (r: seq<Sport>)
      ensures r == sportsList
    {
      r := sportsList;
    }
  }
}
