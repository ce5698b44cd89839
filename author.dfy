/** An author such as J. D. Salinger: a name, a year of birth and an
    identified sex, each independently unknown (null). */
module Authors {
  import opened Wrappers
  import opened JavaStrings

  /** The text of Author.toString, from the renderings of its three fields:
      each sits between fixed phrases at the offset fixed by the lengths of
      the renderings before it, so together they fix the whole text. */
  function Describe(name: string, year: string, sex: string): (d: string)
    ensures |d| == |name| + |year| + |sex| + 22
    ensures d[..|name|] == name
    ensures d[|name|..|name| + 13] == " was born in "
    ensures d[|name| + 13..|name| + 13 + |year|] == year
    ensures d[|name| + 13 + |year|..|name| + 21 + |year|] == " and is "
    ensures d[|name| + 21 + |year|..|d| - 1] == sex
    ensures d[|d| - 1] == '.'
  {
    name + " was born in " + year + " and is " + sex + "."
  }

  class Author {
    var name: Option<string>
    var yearOfBirth: Option<string>
    var sexOfAuthor: Option<string>

    /** Nothing about the author is known. */
    constructor Unknown()
      ensures GetName() == None && GetYearOfBirth() == None && GetSexOfAuthor() == None
    {
      name := None;
      yearOfBirth := None;
      sexOfAuthor := None;
    }

    /** Only the name is known; the sex is unset by default initialisation. */
    constructor Named(aName: Option<string>)
      ensures GetName() == aName && GetYearOfBirth() == None && GetSexOfAuthor() == None
    {
      name := aName;
      yearOfBirth := None;
      sexOfAuthor := None;
    }

    /** The name and year of birth are known, the sex is not. */
    constructor NamedBorn(aName: Option<string>, aYear: Option<string>)
      ensures GetName() == aName && GetYearOfBirth() == aYear && GetSexOfAuthor() == None
    {
      name := aName;
      yearOfBirth := aYear;
      sexOfAuthor := None;
    }

    /** All three attributes are given and stored as they are. */
    constructor (aName: Option<string>, aYear: Option<string>, aSex: Option<string>)
      ensures GetName() == aName && GetYearOfBirth() == aYear && GetSexOfAuthor() == aSex
    {
      name := aName;
      yearOfBirth := aYear;
      sexOfAuthor := aSex;
    }

    method SetName(aName: Option<string>)
      modifies this
      ensures GetName() == aName
      ensures GetYearOfBirth() == old(GetYearOfBirth()) && GetSexOfAuthor() == old(GetSexOfAuthor())
    {
      name := aName;
    }

    method SetYearOfBirth(aYear: Option<string>)
      modifies this
      ensures GetYearOfBirth() == aYear
      ensures GetName() == old(GetName()) && GetSexOfAuthor() == old(GetSexOfAuthor())
    {
      yearOfBirth := aYear;
    }

    method SetSexOfAuthor(aSex: Option<string>)
      modifies this
      ensures GetSexOfAuthor() == aSex
      ensures GetName() == old(GetName()) && GetYearOfBirth() == old(GetYearOfBirth())
    {
      sexOfAuthor := aSex;
    }

    // The getters return the stored value, unset included: unlike Book's
    // getters they substitute no placeholder such as "unattributed".

    function GetName(): (r: Option<string>)
      reads this
      ensures r == name
    {
      name
    }

    function GetYearOfBirth(): (r: Option<string>)
      reads this
      ensures r == yearOfBirth
    {
      yearOfBirth
    }

    function GetSexOfAuthor(): (r: Option<string>)
      reads this
      ensures r == sexOfAuthor
    {
      sexOfAuthor
    }

    /** "<name> was born in <year> and is <sex>.", every unset field written "null". */
    function ToString(): (r: string)
      reads this
      ensures r == Describe(Str(name), Str(yearOfBirth), Str(sexOfAuthor))
    {
      Str(name) + " was born in " + Str(yearOfBirth) + " and is " + Str(sexOfAuthor) + "."
    }
  }

  /** An author about whom nothing is known is described by "null" three times. */
  lemma UnknownDescription(a: Author)
    requires a.GetName() == None && a.GetYearOfBirth() == None && a.GetSexOfAuthor() == None
    ensures a.ToString() == "null" + " was born in " + "null" + " and is " + "null" + "."
  {
  }

  /** The description cannot tell an unset name from the name "null": the
      getters keep the two apart, the rendering does not. */
  lemma DescriptionConflatesNullName(a: Author, b: Author)
    requires a.GetName() == None && b.GetName() == Some("null")
    requires a.GetYearOfBirth() == b.GetYearOfBirth() && a.GetSexOfAuthor() == b.GetSexOfAuthor()
    ensures a.GetName() != b.GetName() && a.ToString() == b.ToString()
  {
  }
}
