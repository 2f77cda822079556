/**
 * The Subject enum: a total, case-insensitive parser with GENERAL as its
 * default, and the lower-case name sent to the front end. Upper-casing is
 * the root-locale mapping restricted to the characters that on their own
 * become an ASCII letter: a-z, dotless i and long s.
 */
module Subjects {
  import opened Common

  datatype Subject = MATH | PROGRAMMING | ENGLISH | GENERAL

  /** The constant's declared name. */
  function Name(s: Subject): string
  {
    match s
    case MATH => "MATH"
    case PROGRAMMING => "PROGRAMMING"
    case ENGLISH => "ENGLISH"
    case GENERAL => "GENERAL"
  }

  function UpperChar(c: char): char
  {
    if 'a' <= c <= 'z' then (c as int - 32) as char
    else if c == '\U{0131}' then 'I'
    else if c == '\U{017F}' then 'S'
    else c
  }

  function LowerChar(c: char): char
  {
    if 'A' <= c <= 'Z' then (c as int + 32) as char else c
  }

  function ToUpper(s: string): (r: string)
    ensures |r| == |s|
    ensures forall i | 0 <= i < |s| :: r[i] == UpperChar(s[i])
  {
    seq(|s|, i requires 0 <= i < |s| => UpperChar(s[i]))
  }

  function Lower(s: string): (r: string)
    ensures |r| == |s|
    ensures forall i | 0 <= i < |s| :: r[i] == LowerChar(s[i])
  {
    seq(|s|, i requires 0 <= i < |s| => LowerChar(s[i]))
  }

  /** Enum.valueOf: the constant with exactly this name, if any. */
  function ValueOf(name: string): (r: Option<Subject>)
    ensures r.Some? ==> Name(r.value) == name
    ensures r.None? ==> forall s: Subject :: Name(s) != name
  {
    if name == "MATH" then Some(MATH)
    else if name == "PROGRAMMING" then Some(PROGRAMMING)
    else if name == "ENGLISH" then Some(ENGLISH)
    else if name == "GENERAL" then Some(GENERAL)
    else None
  }

  /** fromString: null and every unrecognised string give GENERAL; it never fails. */
  function FromString(value: Option<string>): (r: Subject)
    ensures value.None? ==> r == GENERAL
    ensures value.Some? ==> forall s: Subject :: Name(s) == ToUpper(value.value) ==> r == s
    ensures value.Some? && r != GENERAL ==> Name(r) == ToUpper(value.value)
  {
    match value
    case None => GENERAL
    case Some(v) =>
      match ValueOf(ToUpper(v))
      case Some(s) => s
      case None => GENERAL
  }

  /** toLowerCase: the constant's name in lower case. */
  function ToLowerCase(s: Subject): (r: string)
    ensures |r| == |Name(s)|
    ensures forall i | 0 <= i < |r| :: 'a' <= r[i] <= 'z'
    ensures ToUpper(r) == Name(s)
  {
    UpperAsciiNames(s);
    UpperOfLower(Name(s));
    Lower(Name(s))
  }

  predicate UpperAscii(s: string)
  {
    forall i | 0 <= i < |s| :: 'A' <= s[i] <= 'Z'
  }

  lemma UpperAsciiNames(s: Subject)
    ensures UpperAscii(Name(s))
  {
    match s
    case MATH => assert Name(s) == ['M', 'A', 'T', 'H'];
    case PROGRAMMING =>
      assert Name(s) == ['P', 'R', 'O', 'G', 'R', 'A', 'M', 'M', 'I', 'N', 'G'];
    case ENGLISH => assert Name(s) == ['E', 'N', 'G', 'L', 'I', 'S', 'H'];
    case GENERAL => assert Name(s) == ['G', 'E', 'N', 'E', 'R', 'A', 'L'];
  }

  /** Upper-casing undoes lower-casing on an upper-case ASCII name. */
  lemma UpperOfLower(s: string)
    requires UpperAscii(s)
    ensures ToUpper(Lower(s)) == s
  {
  }

  /** Round trip: parsing a constant's lower-case name gives the constant back. */
  lemma FromStringOfLowerCase(s: Subject)
    ensures FromString(Some(ToLowerCase(s))) == s
  {
    UpperAsciiNames(s);
    UpperOfLower(Name(s));
  }

  /** Parsing is case-insensitive: strings with equal upper-case forms parse alike. */
  lemma CaseInsensitive(a: string, b: string)
    requires ToUpper(a) == ToUpper(b)
    ensures FromString(Some(a)) == FromString(Some(b))
  {
  }

  /** Surrounding spaces are not stripped: such a string parses to the default. */
  lemma PaddedNameIsGeneral(s: Subject)
    ensures FromString(Some(" " + Name(s))) == GENERAL
  {
    var padded := ToUpper(" " + Name(s));
    assert padded[0] == ' ';
    UpperAsciiNames(s);
    forall c: Subject
      ensures Name(c) != padded
    {
      UpperAsciiNames(c);
      if |Name(c)| > 0 {
        assert Name(c)[0] != ' ';
      }
    }
  }
}
