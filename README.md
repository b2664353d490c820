# Library members, dates and list formatting (library v2a)

This project models the small library-management fragment `library::v2a` and
proves properties of the model. The fragment has four parts.

- **`Date`** holds a year, a month and a day as 32-bit `unsigned int` fields.
  It is ordered by a defaulted `operator<=>`, which compares year, then month,
  then day.
- **`MakeYearMonthDay`** builds a `Date` from a signed year.
  It casts the year with `static_cast<unsigned int>` and passes month and day through.
- **`Member`** is a library member record: id, member type, name, address,
  birthday and an optional occupation.
  It has getters and a defaulted `operator<=>`. A member whose id is not given
  takes the current value of a counter, and the counter is post-incremented.
  `RegularMemberType::ToString` names the one member type the fragment defines.
- **`JoinVector`** writes a vector as a prefix, the elements with a separator
  between neighbours, and a suffix. The defaults are `", "`, `"["` and `"]"`.

Modules:

- `Machine` (`machine.dfy`): the 32-bit integer types (`uint32`, `int32`) and `Wrap`, reduction modulo 2^32.
- `Wrappers` (`wrappers.dfy`): `Option`, standing for `std::optional`.
- `ThreeWay` (`threeway.dfy`): C++20 `<=>` on the built-in types the defaulted
  comparisons reach. These are integers, `std::string` (lexicographic on
  character codes) and `std::optional<std::string>`. It also defines `Then`,
  the member-by-member step of a defaulted `<=>`.
- `Dates` (`date.dfy`): `Date` and its order. The Dafny datatype constructor
  is the C++ constructor: it stores the three arguments unchanged.
- `Utils` (`utils.dfy`): `MakeYearMonthDay` and the cast it performs.
- `Members` (`member.dfy`): `MemberType`, `Member` and its getters, the
  comparison, and the class `MemberIdAllocator`.
  The `Member` getters (`GetId`, `GetName`, …) are member functions of the
  `Member` datatype that return its fields.
  The static counter `Member::nextId` becomes a field `nextId` of the allocator.
  The allocator also keeps a ghost record `drawn` of every value the counter has
  handed out, so its invariant `Valid()` can tie the counter to its history.
- `Join` (`join.dfy`): `JoinVector`, a reference description of its output as a
  sequence of pieces, and the decimal formatting of `int` elements.

Integer widths are modelled explicitly:
- `static_cast<unsigned int>` of a negative `int` gives value + 2^32.
- `nextId++` wraps from 2^32 - 1 to 0.
- Ids therefore increase strictly only while the counter has not wrapped.
- Up to 2^32 successive ids are pairwise distinct.
- The 2^32 + 1-th id repeats the first.

## Model

| member | source | states |
|---|---|---|
| `Dates.DateStoresFields` | code/completed/library/v2a/lib/Member.h:19-20 | The constructor stores year, month and day unchanged, whatever their values: the fields read back are the arguments. |
| `Dates.CompareDates` | code/completed/library/v2a/lib/Member.h:22 | No contract of its own. Its properties are the lemmas `CompareDatesLexicographic`, `CompareDatesByKey`, `CompareDatesEqualIff`, `CompareDatesFlip`, `DateOrderIsTotal` and `CompareDatesTransitive`. |
| `Dates.CompareDatesLexicographic` | code/completed/library/v2a/lib/Member.h:14-22 | An earlier year makes a date smaller whatever its month and day. Within a year an earlier month decides, and within a month an earlier day. `Less` holds exactly in these cases. |
| `Dates.CompareDatesByKey` | code/completed/library/v2a/lib/Member.h:22 | Comparing two dates gives the same result as comparing one number per date, with year, month and day as the digits in base 2^32. |
| `Dates.CompareDatesEqualIff` | code/completed/library/v2a/lib/Member.h:22 | Two dates compare equal exactly when year, month and day are all equal, that is, when they are the same value. |
| `Dates.CompareDatesFlip` | code/completed/library/v2a/lib/Member.h:22 | Comparing b with a gives the reverse of comparing a with b. |
| `Dates.DateOrderIsTotal` | code/completed/library/v2a/lib/Member.h:22 | "At most" on dates is reflexive, antisymmetric, transitive and total. |
| `Dates.CompareDatesTransitive` | code/completed/library/v2a/lib/Member.h:22 | If a < b and b < c, then a < c. |
| `Dates.CompareDatesLessOrEqualThenLess` | code/completed/library/v2a/lib/Member.h:22 | Two steps that are each "less or equal", at least one of them strict, together give a strict "less". |
| `ThreeWay.CompareStringsLessIff` | code/completed/library/v2a/lib/Member.h:56 | The recursive string comparison gives `Less` exactly when the textbook definition holds: the left string is a proper prefix of the right one, or it has the smaller character at the first position where they differ. |
| `ThreeWay.CompareStringsEqualIff` | code/completed/library/v2a/lib/Member.h:56 | Two strings compare equal exactly when they are equal. |
| `ThreeWay.CompareStringsFlip` | code/completed/library/v2a/lib/Member.h:56 | Swapping the two strings flips the result. |
| `ThreeWay.CompareStringsTransitive` | code/completed/library/v2a/lib/Member.h:56 | "Less" on strings is transitive. |
| `ThreeWay.CompareStringsLessOrEqualThenLess` | code/completed/library/v2a/lib/Member.h:56 | Two string steps that are each "less or equal", at least one of them strict, give a strict "less". |
| `ThreeWay.CompareOptionalsEqualIff` | code/completed/library/v2a/lib/Member.h:56 | Two optional occupations compare equal exactly when they are equal: both empty, or both holding the same string. |
| `ThreeWay.CompareOptionalsFlip` | code/completed/library/v2a/lib/Member.h:56 | Swapping two optional occupations flips the result. |
| `ThreeWay.CompareOptionalsTransitive` | code/completed/library/v2a/lib/Member.h:56 | "Less" on optional occupations is transitive. |
| `ThreeWay.CompareOptionalsCases` | code/completed/library/v2a/lib/Member.h:56 | An empty optional occupation compares below every optional that holds a value, and one that holds a value compares above an empty one. Two optionals that both hold a value compare as those two strings, in the same order. |
| `ThreeWay.CompareStrings` | code/completed/library/v2a/lib/Member.h:56 | No contract of its own. Its properties are the lemmas `CompareStringsLessIff`, `CompareStringsEqualIff`, `CompareStringsFlip` and `CompareStringsTransitive`. |
| `ThreeWay.CompareOptionals` | code/completed/library/v2a/lib/Member.h:56 | No contract of its own. Its properties are the lemmas `CompareOptionalsCases`, `CompareOptionalsEqualIff`, `CompareOptionalsFlip` and `CompareOptionalsTransitive`. |
| `Machine.Wrap` | code/completed/library/v2a/lib/Utils.cpp:9 | Reduction modulo 2^32, as `unsigned int` arithmetic performs it: a value already in range is kept, one up to 2^32 too large loses 2^32, one up to 2^32 too small gains 2^32. It is also the wrap of `nextId++` at Member.h:74. |
| `Utils.StaticCastUnsigned` | code/completed/library/v2a/lib/Utils.cpp:9 | A non-negative `int` keeps its value. A negative one becomes value + 2^32. |
| `Utils.StaticCastUnsignedRoundTrip` | code/completed/library/v2a/lib/Utils.cpp:9 | Casting to unsigned and back gives the original `int`, so the cast loses no information. |
| `Utils.StaticCastSignedRoundTrip` | code/completed/library/v2a/lib/Utils.cpp:9 | Every `unsigned int` is the cast of some `int`, so the cast is onto. |
| `Utils.MakeYearMonthDay` | code/completed/library/v2a/lib/Utils.cpp:7-10 | The function is total: any month and day, for example 13 or 0, pass through unchanged. A non-negative year is kept exactly. A negative year becomes year + 2^32. |
| `Utils.MakeYearMonthDayInjective` | code/completed/library/v2a/lib/Utils.cpp:7-10 | Equal results come only from equal arguments. |
| `Utils.MakeYearMonthDayKeepsOrder` | code/completed/library/v2a/lib/Utils.cpp:7-10 | For two years of the same sign, the dates compare exactly as the (year, month, day) arguments do lexicographically. |
| `Utils.NegativeYearSortsLast` | code/completed/library/v2a/lib/Utils.cpp:9 | A date made from a negative year compares greater than any date made from a non-negative year. |
| `Utils.MakeYearMonthDayExample` | code/completed/library/v2a/test/TestUtils.cpp:13-16 | `MakeYearMonthDay(2023, 10, 2)` has year 2023, month 10 and day 2. |
| `Utils.MakeYearMonthDayNoValidation` | code/completed/library/v2a/lib/Utils.cpp:7-10 | Month 13 and day 0 are stored as given. |
| `Members.MemberType.ToString` | code/completed/library/v2a/lib/Member.h:43 | The regular member type always names itself "regular member". |
| `Members.GettersReturnStoredFields` | code/completed/library/v2a/lib/Member.h:59-70 | Every getter of a constructed member returns the argument its field was given: `GetId`, `GetType`, `GetName`, `GetAddress`, `GetBirthday`, `GetOccupation`. |
| `Members.Member.GetId` | code/completed/library/v2a/lib/Member.h:59 | No contract of its own. It returns its field; the lemma `GettersReturnStoredFields` states this for every constructed member. |
| `Members.Member.GetName` | code/completed/library/v2a/lib/Member.h:60 | No contract of its own. It returns its field; the lemma `GettersReturnStoredFields` states this for every constructed member. |
| `Members.Member.GetAddress` | code/completed/library/v2a/lib/Member.h:61 | No contract of its own. It returns its field; the lemma `GettersReturnStoredFields` states this for every constructed member. |
| `Members.Member.GetBirthday` | code/completed/library/v2a/lib/Member.h:62-65 | No contract of its own. It returns its field; the lemma `GettersReturnStoredFields` states this for every constructed member. |
| `Members.Member.GetOccupation` | code/completed/library/v2a/lib/Member.h:66-69 | No contract of its own. It returns its field; the lemma `GettersReturnStoredFields` states this for every constructed member. |
| `Members.Member.GetType` | code/completed/library/v2a/lib/Member.h:70 | No contract of its own. It returns its field; the lemma `GettersReturnStoredFields` states this for every constructed member. |
| `Members.CompareMembers` | code/completed/library/v2a/lib/Member.h:56 | No contract of its own. Its properties are the lemmas `CompareMembersById`, `CompareMembersEqualIff`, `CompareMembersFlip` and `CompareMembersTransitive`. |
| `Members.CompareMembersById` | code/completed/library/v2a/lib/Member.h:56 | The id is compared first. Members with different ids are ordered by id alone, whatever their other fields. |
| `Members.CompareMembersEqualIff` | code/completed/library/v2a/lib/Member.h:56 | Two members compare equal exactly when id, type-pointer address, name, address, birthday and occupation are all equal. |
| `Members.CompareMembersFlip` | code/completed/library/v2a/lib/Member.h:56 | Swapping two members flips the result. |
| `Members.CompareMembersTransitive` | code/completed/library/v2a/lib/Member.h:56 | "Less" on members is transitive through all six compared fields. |
| `Members.PostIncrement` | code/completed/library/v2a/lib/Member.h:74 | Below the largest `unsigned int` the counter grows by exactly one. From 2^32 - 1 it wraps to 0. |
| `Members.IdsFromIncreasing` | code/completed/library/v2a/lib/Member.h:73-74 | Successive default ids are strictly increasing as long as the counter has not wrapped. |
| `Members.IdsFromDistinct` | code/completed/library/v2a/lib/Member.h:73-74 | Up to 2^32 successive default ids are pairwise distinct, even across a wrap-around. |
| `Members.IdsFromWrapAround` | code/completed/library/v2a/lib/Member.h:73-74 | After 2^32 default constructions the counter is back at its start, so the next id repeats the first. |
| `Members.MemberIdAllocator.constructor` | code/completed/library/v2a/lib/Member.h:73 | The counter starts at the given value and has handed out nothing yet. |
| `Members.MemberIdAllocator.GetNextId` | code/completed/library/v2a/lib/Member.h:58 | Reports the current counter. It changes nothing: there is no `modifies` clause. |
| `Members.MemberIdAllocator.Draw` | code/completed/library/v2a/lib/Member.h:74 | Returns the old counter and post-increments it. The value returned is appended to the record of drawn values. |
| `Members.MemberIdAllocator.NewMember` | code/completed/library/v2a/lib/Member.h:52-54 | The new member's id is the old counter and the counter is post-incremented. Type, name, address and birthday are stored as given. The occupation is stored as given and defaults to empty. The id differs from every id drawn before (while fewer than 2^32 were drawn) and exceeds them all (while the counter has not wrapped). |
| `Members.MemberIdAllocator.NewMemberWithId` | code/completed/library/v2a/lib/Member.h:48-50 | The member has exactly the given id and fields, and the occupation defaults to empty. The counter either stays as it is or is drawn once. |
| `Join.JoinElements` | code/completed/library/v2a/test/TestUtils.cpp:31-56 | No contract of its own. Its properties are the lemmas `JoinElementsIsConcatOfPieces`, `JoinElementsAppend`, `JoinElementsConcat`, `JoinElementsLength` and `JoinElementsThree`. |
| `Join.ElementPiece` | code/completed/library/v2a/test/TestUtils.cpp:49-56 | Piece 2k is element k. |
| `Join.SeparatorPiece` | code/completed/library/v2a/test/TestUtils.cpp:49-56 | Piece 2k + 1 is the separator, for every k below n - 1. |
| `Join.PiecesShape` | code/completed/library/v2a/test/TestUtils.cpp:49-56 | Of n elements' pieces, the even ones are the elements in input order and the odd ones are the separator. That is 2n - 1 pieces and n - 1 separators. The first and last pieces are elements, so no separator stands at either end. |
| `Join.JoinElementsIsConcatOfPieces` | code/completed/library/v2a/test/TestUtils.cpp:31-56 | The recursive join writes exactly the concatenation of those pieces. |
| `Join.JoinVectorShape` | code/completed/library/v2a/test/TestUtils.cpp:22-65 | The output of `JoinVector` starts with the prefix and ends with the suffix. Between them stand exactly the pieces: elements in order, separated by the separator. An empty vector gives the prefix followed directly by the suffix. |
| `Join.JoinVector` | code/completed/library/v2a/test/TestUtils.cpp:22-65 | No contract of its own. Its properties are the lemma `JoinVectorShape` and the five examples below. The defaults `DefaultSeparator`, `DefaultPrefix` and `DefaultSuffix` are `", "`, `"["` and `"]"`. |
| `Join.JoinElementsAppend` | code/completed/library/v2a/test/TestUtils.cpp:49-56 | Appending an element to a non-empty vector appends one separator and that element. |
| `Join.JoinElementsConcat` | code/completed/library/v2a/test/TestUtils.cpp:49-56 | Joining two non-empty runs is joining each and putting one separator between them. |
| `Join.JoinElementsLength` | code/completed/library/v2a/test/TestUtils.cpp:49-56 | The joined text is as long as all elements together plus n - 1 separators. |
| `Join.NatToString` | code/completed/library/v2a/test/TestUtils.cpp:40-47 | The decimal form of a number is non-empty, made of digits only, and has no leading zero. |
| `Join.NatToStringRoundTrip` | code/completed/library/v2a/test/TestUtils.cpp:40-47 | Reading the decimal digits back gives the number. |
| `Join.IntToStringRoundTrip` | code/completed/library/v2a/test/TestUtils.cpp:40-47 | Parsing the textual form of an `int` element (with its minus sign) gives the element back. |
| `Join.IntToString` | code/completed/library/v2a/test/TestUtils.cpp:40-47 | No contract of its own. Its properties are the lemmas `IntToStringCanonical`, `IntToStringRoundTrip` and `IntToStringInjective`. |
| `Join.IntStrings` | code/completed/library/v2a/test/TestUtils.cpp:40-47 | Each `int` element turns into its own decimal form, in order, and there are as many strings as elements. |
| `Join.JoinInts` | code/completed/library/v2a/test/TestUtils.cpp:40-47 | No contract of its own. It is `JoinVector` over the decimal forms of the elements; `JoinVectorIntsExample` states its output for 1, 2, 3. |
| `Join.IntToStringCanonical` | code/completed/library/v2a/test/TestUtils.cpp:40-47 | The written form of an `int` is the canonical decimal: non-empty, a leading minus sign exactly for negative values, digits only after it, and a first digit `0` only for zero (so no `-0` and no leading zeros). |
| `Join.IntToStringInjective` | code/completed/library/v2a/test/TestUtils.cpp:40-47 | Distinct `int` elements have distinct textual forms. |
| `Join.JoinElementsThree` | code/completed/library/v2a/test/TestUtils.cpp:31-65 | Three elements a, b, c are written as a, separator, b, separator, c. |
| `Join.JoinVectorEmptyExample` | code/completed/library/v2a/test/TestUtils.cpp:22-29 | An empty vector is written as `[]`. |
| `Join.JoinVectorStringsExample` | code/completed/library/v2a/test/TestUtils.cpp:31-38 | `alpha`, `beta`, `gamma` are written as `[alpha, beta, gamma]`. |
| `Join.JoinVectorIntsExample` | code/completed/library/v2a/test/TestUtils.cpp:40-47 | 1, 2, 3 are written as `[1, 2, 3]`. |
| `Join.JoinVectorSeparatorExample` | code/completed/library/v2a/test/TestUtils.cpp:49-56 | With separator `"; "` the output is `[alpha; beta; gamma]`. |
| `Join.JoinVectorPrefixSuffixExample` | code/completed/library/v2a/test/TestUtils.cpp:58-65 | With `"; "`, `"("`, `")"` the output is `(alpha; beta; gamma)`. |

## Left out

- NewMemberWithId: allows the counter to stay or to advance by one. The constructor's body lives in `Member.cpp`, which is not part of this model, so it is unknown whether that body triggers `id {nextId++}`.
- `Member.cpp` is not part of this model: the constructor bodies and the initial value of `Member::nextId`. The allocator's constructor takes the starting value as a parameter.
- `Utils.h` is not part of this model. `JoinVector` is modelled from the strings its tests assert: string elements, and `int` elements through their decimal form. Its templating and its `operator<<` mechanics are not modelled.
- The stream `operator<<` for `Date`, `MemberType` and `Member`: this is output, and the bodies are in `Member.cpp`, which is not part of this model.
- `std::unique_ptr<MemberType>` is modelled as the address it holds plus the type object found there. Ownership, uniqueness of addresses, null pointers and the deleted copy and move operations of `MemberType` are memory management and are left out. The defaulted `<=>` compares only the address, and so does the model.
- `Member::nextId` is a process-wide static shared by all members. The model makes it a field of one allocator object; sharing across threads is not modelled.
- `std::string` comparison is modelled on character codes. This matches `char_traits<char>`, which compares characters as `unsigned char`, for text whose codes are below 256.
- The test framework and the `<chrono>` include.
- `unsigned int` and `int` are taken to be 32 bits wide, as on the usual platforms. C++ itself guarantees only 16 bits, so on another platform the wrap-around would happen at a different value.
- NewMember, NewMemberWithId: assume that the constructor bodies, which are in `Member.cpp`, store each argument in the field of the same name. The declarations in `Member.h` fix only the parameters.
