/** Two clients of Author and Book that rely only on their contracts. */
module Scenarios {
  import opened Wrappers
  import opened JavaStrings
  import opened Authors
  import opened Books

  /** J. D. Salinger's novel, built with the three-argument Author and the full Book constructor. */
  method CatcherInTheRye() returns (b: Book)
    ensures b.author != null
    ensures b.GetAuthorName() == "J. D. Salinger"
    ensures b.GetYearOfBirth() == "1919"
    ensures b.HasMaleAuthor() == Ok(true)
    ensures b.GetYearPublished() == "1951"
    ensures b.WasPublishedLastCentury() == Ok(true)
  {
    var a := new Author(Some("J. D. Salinger"), Some("1919"), Some("Male"));
    b := new Book(Some("The Catcher in the Rye"), Some("1951"), Some("Little, Brown and Company"), a);
    assert Numeral("", 0, 1951) == "1951";
    LastCenturyByYear(b, "", 0, 1951);
  }

  /** A book known by its title only: placeholders everywhere and no parsable year. */
  method UntitledWork() returns (b: Book)
    ensures b.author != null
    ensures b.GetAuthorName() == " Unattributed"
    ensures b.GetYearOfBirth() == " Unknown"
    ensures b.GetYearPublished() == "Unknown"
    ensures b.HasMaleAuthor() == Err(NullPointer)
    ensures b.WasPublishedLastCentury() == Err(NumberFormat)
  {
    b := new Book.Titled(Some("Untitled Work"));
  }

  /** Two books built on one Author share it: a change made through one book
      is seen through the other. */
  method SharedAuthor() returns (b1: Book, b2: Book)
    ensures b1.author != null && b1.author == b2.author
    ensures b2.HasMaleAuthor() == Ok(false)
    ensures b2.author.GetSexOfAuthor() == Some("Female")
  {
    var a := new Author(Some("J. D. Salinger"), Some("1919"), Some("Male"));
    b1 := new Book(Some("The Catcher in the Rye"), Some("1951"), Some("Little, Brown and Company"), a);
    b2 := new Book(Some("Nine Stories"), Some("1953"), None, a);
    var outcome := b1.SetAuthorSex(Some("Female"));
  }
}
