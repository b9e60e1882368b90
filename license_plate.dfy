/** dashi-client/LicensePlate.java: a watchlist entry, matched case-insensitively. */
module LicensePlates {
  import opened Wrappers
  import Preconditions

  /** A UUID as its 128 bits. */
  type Uuid = x: nat | x < 0x1_0000_0000_0000_0000_0000_0000_0000_0000

  datatype LicensePlate = LicensePlate(
    uuid: Uuid,
    description: Option<string>,
    number: string,
    priority: Option<int>)

  /** The constructor: a null uuid or number throws IllegalArgumentException; description and
      priority may be null. */
  function NewLicensePlate(uuid: Option<Uuid>, number: Option<string>, description: Option<string>,
                           priority: Option<int>): (r: Result<LicensePlate>)
    ensures r.Ok? <==> uuid.Some? && number.Some?
    ensures r.Throws? ==> r.error.IllegalArgument?
  {
    match Preconditions.AssertParameterNotNull(uuid, Some("uuid"))
    case Throws(e) => Throws(e)
    case Ok(u) =>
      match Preconditions.AssertParameterNotNull(number, Some("number"))
      case Throws(e) => Throws(e)
      case Ok(n) => Ok(LicensePlate(u, description, n, priority))
  }

  /** The getters hand back exactly what the constructor was given. */
  lemma GettersReturnConstructorArguments(uuid: Uuid, number: string, description: Option<string>,
                                          priority: Option<int>)
    ensures NewLicensePlate(Some(uuid), Some(number), description, priority).Ok?
    ensures var p := NewLicensePlate(Some(uuid), Some(number), description, priority).value;
            p.uuid == uuid && p.number == number && p.description == description && p.priority == priority
  {
  }

  /** Upper-case of an ASCII letter; every other character is unchanged. */
  function UpperChar(c: char): char
  {
    if 'a' <= c <= 'z' then (c as int - 32) as char else c
  }

  function LowerChar(c: char): char
  {
    if 'A' <= c <= 'Z' then (c as int + 32) as char else c
  }

  /** Two characters are equal ignoring case in the way String.regionMatches(ignoreCase) compares them. */
  predicate CharEqualsIgnoreCase(a: char, b: char)
  {
    a == b || UpperChar(a) == UpperChar(b) || LowerChar(UpperChar(a)) == LowerChar(UpperChar(b))
  }

  /** String.equalsIgnoreCase: false for null, otherwise equal length and equal characters ignoring case. */
  predicate EqualsIgnoreCase(s: string, other: Option<string>): (r: bool)
    ensures other.None? ==> !r
    ensures r ==> |other.value| == |s|
    ensures other == Some(s) ==> r
  {
    other.Some? && |s| == |other.value| &&
    forall i :: 0 <= i < |s| ==> CharEqualsIgnoreCase(s[i], other.value[i])
  }

  /** LicensePlate.matches: a plate number matches exactly when its upper-case spelling is the
      entry's. */
  predicate Matches(lp: LicensePlate, plateNumber: Option<string>): (r: bool)
    ensures r <==> plateNumber.Some? && ToUpper(lp.number) == ToUpper(plateNumber.value)
  {
    EqualsIgnoreCase(lp.number, plateNumber)
  }

  function ToUpper(s: string): (r: string)
    ensures |r| == |s| && forall i :: 0 <= i < |s| ==> r[i] == UpperChar(s[i])
  {
    if s == [] then [] else [UpperChar(s[0])] + ToUpper(s[1..])
  }

  function ToLower(s: string): (r: string)
    ensures |r| == |s| && forall i :: 0 <= i < |s| ==> r[i] == LowerChar(s[i])
  {
    if s == [] then [] else [LowerChar(s[0])] + ToLower(s[1..])
  }

  lemma CharEqualsIgnoreCaseIsUpperEquality(a: char, b: char)
    ensures CharEqualsIgnoreCase(a, b) <==> UpperChar(a) == UpperChar(b)
  {
  }

  /** An independent definition: a plate number matches exactly when its upper-case form is the
      upper-case form of the entry's number. */
  lemma {:induction false} MatchesIffSameUpperCase(lp: LicensePlate, p: string)
    ensures Matches(lp, Some(p)) <==> ToUpper(lp.number) == ToUpper(p)
  {
    if Matches(lp, Some(p)) {
      forall i | 0 <= i < |p|
        ensures ToUpper(lp.number)[i] == ToUpper(p)[i]
      {
        CharEqualsIgnoreCaseIsUpperEquality(lp.number[i], p[i]);
      }
    }
    if ToUpper(lp.number) == ToUpper(p) {
      forall i | 0 <= i < |p|
        ensures CharEqualsIgnoreCase(lp.number[i], p[i])
      {
        assert ToUpper(lp.number)[i] == ToUpper(p)[i];
      }
    }
  }

  /** Null never matches. */
  lemma NullNeverMatches(lp: LicensePlate)
    ensures !Matches(lp, None)
  {
  }

  lemma UpperOfLower(c: char)
    ensures UpperChar(LowerChar(c)) == UpperChar(c)
  {
  }

  /** An entry matches its own number and every case variant of it: here its all-upper and
      all-lower spellings, and any string with the same upper-case form. */
  lemma MatchesCaseVariants(lp: LicensePlate, variant: string)
    requires ToUpper(variant) == ToUpper(lp.number)
    ensures Matches(lp, Some(lp.number))
    ensures Matches(lp, Some(ToUpper(lp.number)))
    ensures Matches(lp, Some(ToLower(lp.number)))
    ensures Matches(lp, Some(variant))
  {
    MatchesIffSameUpperCase(lp, variant);
    var n := lp.number;
    assert ToUpper(ToUpper(n)) == ToUpper(n) by {
      forall i | 0 <= i < |n| ensures ToUpper(ToUpper(n))[i] == ToUpper(n)[i] {}
    }
    MatchesIffSameUpperCase(lp, ToUpper(n));
    assert ToUpper(ToLower(n)) == ToUpper(n) by {
      forall i | 0 <= i < |n| ensures ToUpper(ToLower(n))[i] == ToUpper(n)[i] {
        UpperOfLower(n[i]);
      }
    }
    MatchesIffSameUpperCase(lp, ToLower(n));
  }

  /** Matching is symmetric in the two spellings. */
  lemma MatchesSymmetric(a: LicensePlate, b: LicensePlate)
    requires Matches(a, Some(b.number))
    ensures Matches(b, Some(a.number))
  {
    MatchesIffSameUpperCase(a, b.number);
    MatchesIffSameUpperCase(b, a.number);
  }
}
