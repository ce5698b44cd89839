# libraryInfo: Author and Book

A Dafny model of the two classes of the libraryInfo teaching example.

- An `Author` holds a name, a year of birth and an identified sex. Each is a
  Java `String` that may be `null`, meaning "unknown".
- A `Book` holds a title, a year published and a publisher, plus a reference
  to the `Author` who wrote it. It forwards author edits to that object and
  derives placeholder strings, `hasMaleAuthor` and `wasPublishedLastCentury`
  from its state.

Layout:

- `wrappers.dfy` (`Wrappers`): `Option` for nullable references, `Result` for
  a call that returns or throws, `Outcome` for a `void` call that completes
  or throws.
- `java_strings.dfy` (`JavaStrings`): the platform behaviour the classes
  rely on.
  - `Str` is how `+` renders a String: `null` becomes the text `null`.
  - `ParseInt` is `Integer.parseInt` in base 10. It accepts an optional `-`
    or `+`, then one or more ASCII digits, with a value in the 32-bit range.
    Anything else is a `NumberFormat` error.
  - `Show` is the decimal rendering `Integer.toString` produces, and
    `Numeral` is a sign, some leading zeros and such a rendering. The lemmas
    prove that `ParseInt` accepts exactly these numerals.
- `author.dfy` (`Authors`): the class `Author` and lemmas about its description.
- `book.dfy` (`Books`): the class `Book` and `Description`, the text of
  `Book.toString` built from its five parts, with lemmas about both.
- `scenarios.dfy` (`Scenarios`): client methods that use only the contracts
  above. They build the example values from the source's field comments:
  J. D. Salinger, born "1919", "Male" (src/Author.java:2, 12-14), and "The
  Catcher in the Rye", "1951", "Little, Brown and Company"
  (src/Book.java:24-26).

How Java is modelled:

- Every `String` field and argument is an `Option<string>`, with `None` for
  `null`. This includes the book's title, because both constructors store
  whatever title they are given.
- `Book.author` is an `Author?`. The full constructor stores the reference it
  is given without checking it, and its comment says the author could be null
  (src/Book.java:32-33).
- A Book's author is a reference. Two Books built on one Author share it,
  and a change made through one is seen through the other
  (`Scenarios.SharedAuthor`).
- Dereferencing a null author throws `NullPointerException`, and `.equals`
  on a null sex does too. The model returns these as `Err(NullPointer)` or
  `Fail(NullPointer)`.
- A failed `Integer.parseInt` returns `Err(NumberFormat)`.
- Constructors are class constructors. Setters are methods with `modifies`
  clauses. The forwarding setters modify only `author`, so the model proves
  that the Book's own fields stay unchanged.
- The getters and both `toString` methods are functions with `reads` clauses.

Where the Javadoc and the code disagree, the model follows the code:

- The comment on `getYearPublished` says it returns "Unknown" when the year
  has not been set (src/Book.java:152-153). It also returns "Unknown" when
  the year is set to the text "Unknown". `Books.Book.GetYearPublished` states
  both cases.
- The comments on `getYearOfBirth` and `getAuthorName` name the placeholders
  "Unknown" and "Unattributed" (src/Book.java:163-165, 182-184). The code
  returns " Unknown" and " Unattributed", each with a leading space. The
  model uses the code's text, and as above it states that a stored text equal
  to the placeholder gives the same result.

## Model

| member | source | states |
|---|---|---|
| JavaStrings.ParseInt | src/Book.java:204 | A failure is always NumberFormat. A success lies in the 32-bit range, has at least one character after the optional sign, has only ASCII digits after it, and is negative only when the text starts with '-'. Sufficient conditions and the value are given by ParseNumeral, and ParseIntForm shows those conditions are also necessary. |
| JavaStrings.ParseShowRoundTrip | src/Book.java:204 | For every 32-bit integer n, ParseInt applied to Show(n) gives back exactly n. |
| JavaStrings.ParseCanonicalRoundTrip | src/Book.java:204 | For a numeral that ParseInt accepts and that has no '+', no leading zero and is not "-0", rendering its value with Show gives back the same text. |
| JavaStrings.Str | src/Author.java:118 | A set String renders as itself. The rendering is "null" exactly when the value is unset or is the text "null". |
| JavaStrings.ParseNumeral | src/Book.java:204 | Every numeral made of an optional '+' or '-', any number of leading zeros and the rendering of a magnitude m is accepted when its signed value is a 32-bit integer, and parses to that value. |
| JavaStrings.ParseIntForm | src/Book.java:204 | Every text ParseInt accepts is such a numeral: its sign, its droppable leading zeros, then the rendering of the magnitude of its value. |
| JavaStrings.NonCanonicalNumerals | src/Book.java:204 | "+1951" and "01951" parse to 1951, and "-0" and "+0" parse to 0. |
| Authors.Author.Unknown | src/Author.java:20-25 | The zero-argument constructor leaves the name, year of birth and sex all unset. |
| Authors.Author.Named | src/Author.java:31-35 | The one-argument constructor stores the name. The year of birth is unset, and the sex is unset by default initialisation. |
| Authors.Author.NamedBorn | src/Author.java:41-46 | The two-argument constructor stores the name and the year of birth verbatim and leaves the sex unset. |
| Authors.Author.constructor | src/Author.java:53-58 | The three-argument constructor stores all three values verbatim, unset values included. |
| Authors.Author.SetName | src/Author.java:63-66 | Afterwards GetName returns exactly the value set, unset included. GetYearOfBirth and GetSexOfAuthor return what they returned before. |
| Authors.Author.SetYearOfBirth | src/Author.java:71-74 | Afterwards GetYearOfBirth returns exactly the value set. The name and sex are unchanged. |
| Authors.Author.SetSexOfAuthor | src/Author.java:79-82 | Afterwards GetSexOfAuthor returns exactly the value set. The name and year of birth are unchanged. |
| Authors.UnknownDescription | src/Author.java:116-119 | An author with every field unset is described as "null was born in null and is null.". |
| Authors.Author.GetName | src/Author.java:90-93 | Returns the stored name verbatim. An unset name comes back unset, with no placeholder. |
| Authors.Author.GetYearOfBirth | src/Author.java:99-102 | Returns the stored year of birth verbatim, unset as unset. |
| Authors.Author.GetSexOfAuthor | src/Author.java:108-111 | Returns the stored sex verbatim, unset as unset. |
| Authors.Describe | src/Author.java:118 | The description is the name's rendering, then " was born in ", the year's rendering, " and is ", the sex's rendering and a final '.'. Each piece sits at the offset fixed by the lengths of the pieces before it, so together they fix the whole text. |
| Authors.Author.ToString | src/Author.java:116-119 | The description is Describe applied to the renderings of the name, year of birth and sex, where each unset field renders as "null". |
| Authors.DescriptionConflatesNullName | src/Author.java:116-119 | An author with an unset name and one named "null" differ, as their getters show, but have the same description. |
| Books.Book.constructor | src/Book.java:35-41 | The full constructor stores the title, year, publisher and author reference verbatim, with no validation. The author may be null. |
| Books.Book.Titled | src/Book.java:51-57 | The title-only constructor stores the title and leaves year and publisher unset. Its author is a fresh Author with every field unset. |
| Books.Book.SetAuthorName | src/Book.java:70-73 | With an author, only the author's name changes, to the value given, and the call completes. With no author it throws NullPointer. In both cases the Book's own fields and its author reference are unchanged. |
| Books.Book.SetYearOfBirth | src/Book.java:81-84 | With an author, only the author's year of birth changes, to the value given. With no author it throws NullPointer. The Book itself is unchanged. |
| Books.Book.SetAuthorSex | src/Book.java:92-95 | With an author, only the author's sex changes, to the value given. With no author it throws NullPointer. The Book itself is unchanged. |
| Books.Book.SetTitle | src/Book.java:100-103 | Afterwards GetTitle returns exactly the value set. Year, publisher, the author reference and the author's fields are unchanged. |
| Books.Book.SetBookPublisher | src/Book.java:108-111 | Afterwards GetBookPublisher returns exactly the value set, an unset value as unset. The other fields and the author are unchanged. |
| Books.Book.SetYearPublished | src/Book.java:116-119 | Afterwards GetYearPublished returns the value set when it is set, and "Unknown" when it is unset. The other fields and the author are unchanged. |
| Books.Book.HasMaleAuthor | src/Book.java:144-148 | It throws NullPointer exactly when the author is null or its sex is unset. It returns true exactly when the sex is "Male", compared case-sensitively, and false exactly when the sex is set to anything else. |
| Books.Book.GetYearPublished | src/Book.java:155-159 | A set year is returned verbatim. The result is "Unknown", with no leading space, exactly when the year is unset or is the text "Unknown". |
| Books.Book.GetYearOfBirth | src/Book.java:167-178 | When there is an author with a year of birth, that year is returned verbatim. The result is " Unknown", with a leading space, exactly when the author is null, its year is unset, or its year is the text " Unknown". |
| Books.Book.GetAuthorName | src/Book.java:186-197 | When there is an author with a name, that name is returned verbatim. The result is " Unattributed", with a leading space, exactly when the author is null, its name is unset, or its name is the text " Unattributed". |
| Books.Book.WasPublishedLastCentury | src/Book.java:202-205 | It fails exactly when ParseInt rejects GetYearPublished(), always with NumberFormat, and an unset year is one such failure. It is true exactly when that text parses to some n with 1899 < n < 2000. |
| Books.LastCenturyByYear | src/Book.java:202-205 | When the year published is any accepted numeral (sign, leading zeros, magnitude) with a 32-bit value v, the result is Ok(true) exactly when 1900 <= v <= 1999, and Ok(false) otherwise. |
| Books.Book.GetTitle | src/Book.java:124-127 | Returns the stored title verbatim, unset as unset. |
| Books.Book.GetBookPublisher | src/Book.java:132-135 | Returns the stored publisher verbatim. An unset publisher comes back unset, not as a placeholder. |
| Books.Book.ToString | src/Book.java:210-213 | It throws NullPointer exactly when the author is null. Otherwise it returns the Description of the title's rendering, the raw author name's rendering (not the " Unattributed" getter), the author's own description, GetYearPublished() and the publisher's rendering. |
| Books.Description | src/Book.java:212 | The text is "The book titled ", the title, " was written by ", the name, ". ", the author's description, " The book was published in ", the year, " by ", the publisher and ".". Each piece sits at the offset fixed by the lengths before it, and the length is the parts' lengths plus 66. |
| Books.TitledDescription | src/Book.java:210-213 | For a title-only book, the author name renders as "null" and not " Unattributed", the author as Describe("null", "null", "null"), the year as "Unknown" and the publisher as "null". |
| Scenarios.CatcherInTheRye | src/Book.java:35-41 | A book by Author("J. D. Salinger", "1919", "Male"), published "1951", reports that author name and year of birth, a male author, year "1951", and publication last century. |
| Scenarios.UntitledWork | src/Book.java:51-57 | The title-only book reports " Unattributed", " Unknown" and "Unknown". hasMaleAuthor throws NullPointer and wasPublishedLastCentury throws NumberFormat. |
| Scenarios.SharedAuthor | src/Book.java:92-95 | Two books built on one Author share it: after setting the sex to "Female" through the first book, the second reports no male author. |

## Left out

- Java object identity and garbage collection are left out. The sharing of
  an Author between Books is modelled by the reference.
- Exceptions are error values (`Err`, `Fail`) instead of control flow.
- JavaStrings.ParseInt does not accept the non-ASCII Unicode decimal digits
  that `Character.digit` accepts. Only ASCII '0'-'9' are modelled.
- Books.Book.WasPublishedLastCentury parses once. The source calls
  `Integer.parseInt(getYearPublished())` twice on the same text, and both
  calls give the same result or the same exception.
- `getYearPublished` uses `Objects.requireNonNullElse`. It is modelled as the
  inline "unset gives Unknown" case.
- The unused local `aSex` in `hasMaleAuthor` is left out.
