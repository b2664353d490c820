/**
 * `library::v2a::Member` and its member types: a library member record whose
 * id, unless given explicitly, is drawn from a counter that every such
 * construction post-increments. The counter is an explicit allocator object
 * here instead of the static `Member::nextId`.
 */
module Members {
  import opened Machine
  import opened Wrappers
  import opened ThreeWay
  import opened Dates

  /** The kinds of member; `RegularMemberType` is the only one the library defines. */
  datatype MemberType = RegularMemberType {
    /** The display name of the member type. */
    function ToString(): (s: string)
      ensures s == "regular member"
    {
      match this
      case RegularMemberType => "regular member"
    }
  }

  /**
   * The `std::unique_ptr<MemberType>` a member holds: the address it points
   * to and the member type found there. Comparing two pointers compares the
   * addresses only.
   */
  datatype TypePtr = TypePtr(address: nat, pointee: MemberType)

  datatype Member = Member(
    id: uint32,
    memberType: TypePtr,
    name: string,
    address: string,
    birthday: Date,
    occupation: Option<string>)
  {
    function GetId(): uint32 { id }
    function GetType(): TypePtr { memberType }
    function GetName(): string { name }
    function GetAddress(): string { address }
    function GetBirthday(): Date { birthday }
    function GetOccupation(): Option<string> { occupation }
  }

  /**
   * Construct, then read back: every getter returns the argument the
   * constructor received for its field (the type as the same pointer).
   */
  lemma GettersReturnStoredFields(id: uint32, memberType: TypePtr, name: string, address: string,
                                  birthday: Date, occupation: Option<string>)
    ensures Member(id, memberType, name, address, birthday, occupation).GetId() == id
    ensures Member(id, memberType, name, address, birthday, occupation).GetType() == memberType
    ensures Member(id, memberType, name, address, birthday, occupation).GetName() == name
    ensures Member(id, memberType, name, address, birthday, occupation).GetAddress() == address
    ensures Member(id, memberType, name, address, birthday, occupation).GetBirthday() == birthday
    ensures Member(id, memberType, name, address, birthday, occupation).GetOccupation() == occupation
  {
  }

  /**
   * The defaulted `operator<=>` of `Member`: id, type pointer, name, address,
   * birthday and occupation, in declaration order.
   */
  function CompareMembers(a: Member, b: Member): Ordering {
    Then(CompareInts(a.id as int, b.id as int),
      Then(CompareInts(a.memberType.address, b.memberType.address),
        Then(CompareStrings(a.name, b.name),
          Then(CompareStrings(a.address, b.address),
            Then(CompareDates(a.birthday, b.birthday),
              CompareOptionals(a.occupation, b.occupation))))))
  }

  /** The id is compared first: members with different ids are ordered by id alone. */
  lemma CompareMembersById(a: Member, b: Member)
    requires a.id != b.id
    ensures CompareMembers(a, b) == (if a.id < b.id then Less else Greater)
  {
  }

  /**
   * Two members compare equal exactly when every compared field is equal
   * (for the type, the pointer's address, not the object behind it).
   */
  lemma CompareMembersEqualIff(a: Member, b: Member)
    ensures CompareMembers(a, b) == Equal <==>
      a.id == b.id && a.memberType.address == b.memberType.address && a.name == b.name &&
      a.address == b.address && a.birthday == b.birthday && a.occupation == b.occupation
  {
    CompareStringsEqualIff(a.name, b.name);
    CompareStringsEqualIff(a.address, b.address);
    CompareDatesEqualIff(a.birthday, b.birthday);
    CompareOptionalsEqualIff(a.occupation, b.occupation);
  }

  /** Swapping the operands flips the result. */
  lemma CompareMembersFlip(a: Member, b: Member)
    ensures CompareMembers(b, a) == CompareMembers(a, b).Flip()
  {
    CompareStringsFlip(a.name, b.name);
    CompareStringsFlip(a.address, b.address);
    CompareDatesFlip(a.birthday, b.birthday);
    CompareOptionalsFlip(a.occupation, b.occupation);
  }

  /** "Less than" on members is transitive. */
  lemma CompareMembersTransitive(a: Member, b: Member, c: Member)
    requires CompareMembers(a, b) == Less && CompareMembers(b, c) == Less
    ensures CompareMembers(a, c) == Less
  {
    CompareMembersEqualIff(a, b);
    CompareMembersEqualIff(b, c);
    if a.id == b.id == c.id && a.memberType.address == b.memberType.address == c.memberType.address {
      CompareStringsEqualIff(a.name, b.name);
      CompareStringsEqualIff(b.name, c.name);
      if a.name == b.name == c.name {
        CompareStringsEqualIff(a.address, b.address);
        CompareStringsEqualIff(b.address, c.address);
        if a.address == b.address == c.address {
          CompareDatesEqualIff(a.birthday, b.birthday);
          CompareDatesEqualIff(b.birthday, c.birthday);
          if a.birthday == b.birthday == c.birthday {
            CompareOptionalsTransitive(a.occupation, b.occupation, c.occupation);
          } else {
            CompareDatesLessOrEqualThenLess(a.birthday, b.birthday, c.birthday);
          }
        } else {
          CompareStringsLessOrEqualThenLess(a.address, b.address, c.address);
        }
      } else {
        CompareStringsLessOrEqualThenLess(a.name, b.name, c.name);
      }
    }
  }

  /** The counter after `nextId++` on a 32-bit `unsigned int`. */
  function PostIncrement(x: uint32): (y: uint32)
    ensures x as int < UintModulus - 1 ==> y as int == x as int + 1
    ensures x as int == UintModulus - 1 ==> y == 0
  {
    Wrap(x as int + 1)
  }

  /** The first `n` values a counter starting at `first` hands out, one per increment. */
  ghost function IdsFrom(first: uint32, n: nat): seq<uint32> {
    seq(n, i => Wrap(first as int + i))
  }

  /** As long as the counter has not wrapped, every later id is larger than every earlier one. */
  lemma IdsFromIncreasing(first: uint32, n: nat)
    requires first as int + n <= UintModulus
    ensures forall i, j :: 0 <= i < j < n ==> IdsFrom(first, n)[i] < IdsFrom(first, n)[j]
  {
    forall i, j | 0 <= i < j < n
      ensures IdsFrom(first, n)[i] < IdsFrom(first, n)[j]
    {
      assert IdsFrom(first, n)[i] == Wrap(first as int + i);
      assert IdsFrom(first, n)[j] == Wrap(first as int + j);
    }
  }

  /** Up to 2^32 successive ids are pairwise distinct, even across a wrap-around. */
  lemma IdsFromDistinct(first: uint32, n: nat)
    requires n <= UintModulus
    ensures forall i, j :: 0 <= i < j < n ==> IdsFrom(first, n)[i] != IdsFrom(first, n)[j]
  {
    forall i, j | 0 <= i < j < n
      ensures IdsFrom(first, n)[i] != IdsFrom(first, n)[j]
    {
      var f, m := first as int, UintModulus;
      assert IdsFrom(first, n)[i] == Wrap(f + i) && IdsFrom(first, n)[j] == Wrap(f + j);
      var a, b := Wrap(f + i) as int, Wrap(f + j) as int;
      if f + j < m {
        assert a == f + i && b == f + j;
      } else if f + i >= m {
        assert a == f + i - m && b == f + j - m;
      } else {
        assert a == f + i && b == f + j - m;
      }
    }
  }

  /** After 2^32 draws the counter is back where it started, so the next id repeats the first. */
  lemma IdsFromWrapAround(first: uint32)
    ensures IdsFrom(first, UintModulus + 1)[UintModulus] == IdsFrom(first, UintModulus + 1)[0] == first
  {
    var ids := IdsFrom(first, UintModulus + 1);
    assert ids[0] == Wrap(first as int) && ids[UintModulus] == Wrap(first as int + UintModulus);
  }

  /**
   * The id counter (`Member::nextId`). `drawn` records, in order, every value
   * the counter has handed out since `first`.
   */
  class MemberIdAllocator {
    var nextId: uint32
    ghost const first: uint32
    ghost var drawn: seq<uint32>

    ghost predicate Valid()
      reads this
    {
      drawn == IdsFrom(first, |drawn|) && nextId == Wrap(first as int + |drawn|)
    }

    /** The counter's definition, which sets its starting value. */
    constructor (start: uint32)
      ensures Valid()
      ensures nextId == start && first == start && drawn == []
    {
      nextId := start;
      first := start;
      drawn := [];
    }

    /** `Member::GetNextId`: reports the counter and changes nothing. */
    method GetNextId() returns (r: uint32)
      ensures r == nextId
    {
      r := nextId;
    }

    /** Extends `drawn` by the current counter value and post-increments the counter. */
    method Draw() returns (id: uint32)
      requires Valid()
      modifies this
      ensures Valid()
      ensures id == old(nextId) && nextId == PostIncrement(old(nextId))
      ensures drawn == old(drawn) + [id]
    {
      id := nextId;
      assert drawn + [id] == IdsFrom(first, |drawn| + 1);
      nextId := PostIncrement(nextId);
      drawn := drawn + [id];
    }

    /**
     * The constructor whose `id` is left to its default initializer: the new
     * member gets the current counter value, the counter grows by one, and the
     * other fields are stored as given (`occupation` defaults to empty).
     */
    method NewMember(memberType: TypePtr, name: string, address: string, birthday: Date,
                     occupation: Option<string> := None)
      returns (m: Member)
      requires Valid()
      modifies this
      ensures Valid()
      ensures m == Member(old(nextId), memberType, name, address, birthday, occupation)
      ensures nextId == PostIncrement(old(nextId))
      ensures drawn == old(drawn) + [m.id]
      ensures |old(drawn)| < UintModulus ==> m.id !in old(drawn)
      ensures first as int + |old(drawn)| < UintModulus ==>
        forall k :: 0 <= k < |old(drawn)| ==> old(drawn)[k] < m.id
    {
      var id := Draw();
      m := Member(id, memberType, name, address, birthday, occupation);
      ghost var n := |old(drawn)|;
      assert drawn[n] == id && drawn[..n] == old(drawn);
      if n < UintModulus {
        IdsFromDistinct(first, n + 1);
        assert forall k :: 0 <= k < n ==> drawn[k] != drawn[n];
      }
      if first as int + n < UintModulus {
        IdsFromIncreasing(first, n + 1);
        assert forall k :: 0 <= k < n ==> drawn[k] < drawn[n];
      }
    }

    /**
     * The constructor that is given an id. Its body is not part of this
     * model, so the contract allows the counter either to stay as it is or to
     * be drawn once, as it would be if the default initializer still ran.
     */
    method NewMemberWithId(id: uint32, memberType: TypePtr, name: string, address: string,
                           birthday: Date, occupation: Option<string> := None)
      returns (m: Member)
      requires Valid()
      modifies this
      ensures Valid()
      ensures m == Member(id, memberType, name, address, birthday, occupation)
      ensures (nextId == old(nextId) && drawn == old(drawn)) ||
              (nextId == PostIncrement(old(nextId)) && drawn == old(drawn) + [old(nextId)])
    {
      m := Member(id, memberType, name, address, birthday, occupation);
    }
  }
}
