/** A published work: a title, a year of publication and a publisher, plus a
    reference to the Author who wrote it. That reference is null when the
    full constructor is given null. */
module Books {
  import opened Wrappers
  import opened JavaStrings
  import opened Authors

  /** The text of Book.toString, from the renderings of its five parts: each
      part sits between fixed phrases at the offset fixed by the lengths of the
      parts before it, so the parts and phrases together fix the whole text. */
  function Description(title: string, name: string, author: string, year: string, publisher: string): (d: string)
    ensures |d| == 66 + |title| + |name| + |author| + |year| + |publisher|
    ensures d[..16] == "The book titled "
    ensures d[16..16 + |title|] == title
    ensures d[16 + |title|..32 + |title|] == " was written by "
    ensures d[32 + |title|..32 + |title| + |name|] == name
    ensures d[32 + |title| + |name|..34 + |title| + |name|] == ". "
    ensures d[34 + |title| + |name|..34 + |title| + |name| + |author|] == author
    ensures d[34 + |title| + |name| + |author|..61 + |title| + |name| + |author|] == " The book was published in "
    ensures d[61 + |title| + |name| + |author|..61 + |title| + |name| + |author| + |year|] == year
    ensures d[61 + |title| + |name| + |author| + |year|..65 + |title| + |name| + |author| + |year|] == " by "
    ensures d[65 + |title| + |name| + |author| + |year|..|d| - 1] == publisher
    ensures d[|d| - 1] == '.'
  {
    "The book titled " + title + " was written by " + name + ". " + author
    + " The book was published in " + year + " by " + publisher + "."
  }

  class Book {
    var title: Option<string>
    var yearPublished: Option<string>
    var bookPublisher: Option<string>
    var author: Author?

    /** Stores every argument as given; nothing is checked, so the author may be null. */
    constructor (aTitle: Option<string>, aYear: Option<string>, aPublisher: Option<string>, theAuthor: Author?)
      ensures title == aTitle && yearPublished == aYear && bookPublisher == aPublisher
      ensures author == theAuthor
    {
      title := aTitle;
      yearPublished := aYear;
      bookPublisher := aPublisher;
      author := theAuthor;
    }

    /** Only the title is known; the book gets a fresh Author about whom nothing is known. */
    constructor Titled(aTitle: Option<string>)
      ensures title == aTitle && yearPublished == None && bookPublisher == None
      ensures author != null && fresh(author)
      ensures author.GetName() == None && author.GetYearOfBirth() == None && author.GetSexOfAuthor() == None
    {
      title := aTitle;
      yearPublished := None;
      bookPublisher := None;
      author := new Author.Unknown();
    }

    // The three forwarding setters change the Author, never the Book itself,
    // and throw NullPointerException when there is no Author.

    method SetAuthorName(aName: Option<string>) returns (outcome: Outcome<JavaError>)
      modifies author
      ensures outcome == if author == null then Fail(NullPointer) else Pass
      ensures author != null ==> author.GetName() == aName
      ensures author != null ==> author.GetYearOfBirth() == old(author.GetYearOfBirth())
      ensures author != null ==> author.GetSexOfAuthor() == old(author.GetSexOfAuthor())
      ensures unchanged(this)
    {
      if author == null {
        return Fail(NullPointer);
      }
      author.SetName(aName);
      return Pass;
    }

    method SetYearOfBirth(aYear: Option<string>) returns (outcome: Outcome<JavaError>)
      modifies author
      ensures outcome == if author == null then Fail(NullPointer) else Pass
      ensures author != null ==> author.GetYearOfBirth() == aYear
      ensures author != null ==> author.GetName() == old(author.GetName())
      ensures author != null ==> author.GetSexOfAuthor() == old(author.GetSexOfAuthor())
      ensures unchanged(this)
    {
      if author == null {
        return Fail(NullPointer);
      }
      author.SetYearOfBirth(aYear);
      return Pass;
    }

    method SetAuthorSex(aSex: Option<string>) returns (outcome: Outcome<JavaError>)
      modifies author
      ensures outcome == if author == null then Fail(NullPointer) else Pass
      ensures author != null ==> author.GetSexOfAuthor() == aSex
      ensures author != null ==> author.GetName() == old(author.GetName())
      ensures author != null ==> author.GetYearOfBirth() == old(author.GetYearOfBirth())
      ensures unchanged(this)
    {
      if author == null {
        return Fail(NullPointer);
      }
      author.SetSexOfAuthor(aSex);
      return Pass;
    }

    // The Book's own setters overwrite one field and leave the Author alone.

    method SetTitle(aTitle: Option<string>)
      modifies this
      ensures GetTitle() == aTitle
      ensures yearPublished == old(yearPublished) && bookPublisher == old(bookPublisher)
      ensures author == old(author) && (author != null ==> unchanged(author))
    {
      title := aTitle;
    }

    method SetBookPublisher(aPublisher: Option<string>)
      modifies this
      ensures GetBookPublisher() == aPublisher
      ensures title == old(title) && yearPublished == old(yearPublished)
      ensures author == old(author) && (author != null ==> unchanged(author))
    {
      bookPublisher := aPublisher;
    }

    method SetYearPublished(aYear: Option<string>)
      modifies this
      ensures yearPublished == aYear
      ensures aYear.Some? ==> GetYearPublished() == aYear.value
      ensures aYear.None? ==> GetYearPublished() == "Unknown"
      ensures title == old(title) && bookPublisher == old(bookPublisher)
      ensures author == old(author) && (author != null ==> unchanged(author))
    {
      yearPublished := aYear;
    }

    // Raw getters: an unset title or publisher is returned as unset.

    function GetTitle(): (r: Option<string>)
      reads this
      ensures r == title
    {
      title
    }

    function GetBookPublisher(): (r: Option<string>)
      reads this
      ensures r == bookPublisher
    {
      bookPublisher
    }

    /** Whether the author's sex equals "Male", case-sensitively; a null author
        or a null sex throws NullPointerException. */
    function HasMaleAuthor(): (r: Result<bool, JavaError>)
      reads this, author
      ensures r.Err? <==> author == null || author.GetSexOfAuthor().None?
      ensures r.Err? ==> r.error == NullPointer
      ensures r == Ok(true) <==> author != null && author.GetSexOfAuthor() == Some("Male")
      ensures r == Ok(false) <==>
        author != null && author.GetSexOfAuthor().Some? && author.GetSexOfAuthor().value != "Male"
    {
      if author == null then Err(NullPointer)
      else match author.GetSexOfAuthor()
        case None => Err(NullPointer)
        case Some(sex) => Ok(sex == "Male")
    }

    /** The year published, or "Unknown" when it is unset. */
    function GetYearPublished(): (r: string)
      reads this
      ensures yearPublished.Some? ==> r == yearPublished.value
      ensures r == "Unknown" <==> yearPublished == None || yearPublished == Some("Unknown")
    {
      match yearPublished
      case None => "Unknown"
      case Some(year) => year
    }

    /** The author's year of birth, or " Unknown" when there is no author or no year. */
    function GetYearOfBirth(): (r: string)
      reads this, author
      ensures author != null && author.GetYearOfBirth().Some? ==> r == author.GetYearOfBirth().value
      ensures r == " Unknown" <==>
        author == null || author.GetYearOfBirth() == None || author.GetYearOfBirth() == Some(" Unknown")
    {
      if author == null || author.GetYearOfBirth() == None then " Unknown"
      else author.GetYearOfBirth().value
    }

    /** The author's name, or " Unattributed" when there is no author or no name. */
    function GetAuthorName(): (r: string)
      reads this, author
      ensures author != null && author.GetName().Some? ==> r == author.GetName().value
      ensures r == " Unattributed" <==>
        author == null || author.GetName() == None || author.GetName() == Some(" Unattributed")
    {
      if author == null || author.GetName() == None then " Unattributed"
      else author.GetName().value
    }

    /** Whether Integer.parseInt(getYearPublished()) lies strictly between 1899
        and 2000; an unparsable year, "Unknown" included, throws
        NumberFormatException. */
    function WasPublishedLastCentury(): (r: Result<bool, JavaError>)
      reads this
      ensures r.Err? <==> ParseInt(GetYearPublished()).Err?
      ensures r.Err? ==> r.error == NumberFormat
      ensures yearPublished.None? ==> r == Err(NumberFormat)
      ensures r == Ok(true) <==> exists n :: ParseInt(GetYearPublished()) == Ok(n) && 1899 < n < 2000
    {
      match ParseInt(GetYearPublished())
      case Err(e) => Err(e)
      case Ok(year) => Ok(year > 1899 && year < 2000)
    }

    /** "The book titled <title> was written by <name>. <author> The book was
        published in <year> by <publisher>.", with the raw (not placeholder)
        author name and null fields written "null"; a null author throws. */
    function ToString(): (r: Result<string, JavaError>)
      reads this, author
      ensures r.Err? <==> author == null
      ensures r.Err? ==> r.error == NullPointer
      ensures author != null ==> r == Ok(Description(Str(title), Str(author.GetName()), author.ToString(),
                                                     GetYearPublished(), Str(GetBookPublisher())))
    {
      if author == null then Err(NullPointer)
      else Ok(Description(Str(title), Str(author.GetName()), author.ToString(), GetYearPublished(),
                          Str(GetBookPublisher())))
    }
  }

  /** A book whose year published is a numeral Integer.parseInt accepts
      (a sign, leading zeros, a magnitude m; ParseIntForm shows every accepted
      text has this form) was published last century exactly when its value
      lies in 1900..1999. */
  lemma LastCenturyByYear(b: Book, sign: string, z: nat, m: nat)
    requires IsSign(sign) && InInt32(Signed(sign, m))
    requires b.yearPublished == Some(Numeral(sign, z, m))
    ensures b.WasPublishedLastCentury() == Ok(1900 <= Signed(sign, m) <= 1999)
  {
    ParseNumeral(sign, z, m);
  }

  /** A book made from its title alone is described with "null" for every
      unknown attribute except the year, which reads "Unknown". */
  lemma TitledDescription(b: Book, aTitle: string)
    requires b.title == Some(aTitle) && b.yearPublished == None && b.bookPublisher == None
    requires b.author != null
    requires b.author.GetName() == None && b.author.GetYearOfBirth() == None && b.author.GetSexOfAuthor() == None
    ensures b.ToString() == Ok(Description(aTitle, "null", Describe("null", "null", "null"), "Unknown", "null"))
  {
  }
}
