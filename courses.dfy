/** The course registry: course records, the trimming of a typed-in name,
    and registration that inserts a name only when no course has it yet.
 */
module Courses {
  import opened Ordering

  /** A stored course document: its name and the user who first added it. */
  datatype Course = Course(name: string, addedBy: string)

  /** The characters `String.prototype.trim` removes: ECMAScript white space
      and line terminators. */
  predicate IsSpace(c: char)
  {
    c == '\t' || c == '\n' || c == '\U{000B}' || c == '\U{000C}' || c == '\r' || c == ' '
    || c == '\U{00A0}' || c == '\U{1680}' || ('\U{2000}' <= c <= '\U{200A}')
    || c == '\U{2028}' || c == '\U{2029}' || c == '\U{202F}' || c == '\U{205F}'
    || c == '\U{3000}' || c == '\U{FEFF}'
  }

  predicate AllSpace(s: string)
  {
    forall i :: 0 <= i < |s| ==> IsSpace(s[i])
  }

  /** How many white-space characters `s` starts with. */
  function LeadingSpace(s: string): (k: nat)
    ensures k <= |s| && AllSpace(s[..k])
    ensures k < |s| ==> !IsSpace(s[k])
  {
    if s != [] && IsSpace(s[0]) then
      var k' := LeadingSpace(s[1..]);
      assert s[..1 + k'] == [s[0]] + s[1..][..k'];
      1 + k'
    else 0
  }

  /** How many white-space characters `s` ends with. */
  function TrailingSpace(s: string): (k: nat)
    ensures k <= |s| && AllSpace(s[|s| - k..])
    ensures k < |s| ==> !IsSpace(s[|s| - k - 1])
  {
    if s != [] && IsSpace(s[|s| - 1]) then
      var init := s[..|s| - 1];
      var k' := TrailingSpace(init);
      assert s[|s| - 1 - k'..] == init[|init| - k'..] + [s[|s| - 1]];
      1 + k'
    else 0
  }

  /** `String.prototype.trim`: `s` without its leading and trailing white
      space; what is left neither starts nor ends with white space. */
  function Trim(s: string): (r: string)
    ensures LeadingSpace(s) + |r| <= |s|
    ensures r == s[LeadingSpace(s)..LeadingSpace(s) + |r|]
    ensures AllSpace(s[..LeadingSpace(s)]) && AllSpace(s[LeadingSpace(s) + |r|..])
    ensures r == [] || (!IsSpace(r[0]) && !IsSpace(r[|r| - 1]))
  {
    var i := LeadingSpace(s);
    var t := s[i..];
    var k := TrailingSpace(t);
    var r := t[..|t| - k];
    assert r == s[i..i + |r|];
    assert s[i + |r|..] == t[|t| - k..];
    assert r != [] ==> r[0] == s[i];
    assert r != [] ==> r[|r| - 1] == t[|t| - k - 1];
    r
  }

  /** A name made only of white space trims to the empty name, and only such
      a name does. */
  lemma TrimEmpty(s: string)
    ensures Trim(s) == [] <==> AllSpace(s)
  {
    var r, i := Trim(s), LeadingSpace(s);
    if r == [] {
      assert s == s[..i];
    } else {
      assert r[0] == s[i];
    }
  }

  /** Trimming a trimmed name changes nothing. */
  lemma TrimIdempotent(s: string)
    ensures Trim(Trim(s)) == Trim(s)
  {
    TrimFixesTrimmed(Trim(s));
  }

  lemma TrimFixesTrimmed(s: string)
    requires s == [] || (!IsSpace(s[0]) && !IsSpace(s[|s| - 1]))
    ensures Trim(s) == s
  {
    var r, i := Trim(s), LeadingSpace(s);
    if s != [] {
      assert i == 0;
    }
  }

  /** A course named exactly `name` is stored (the exact-match query). */
  predicate HasCourse(courses: seq<Course>, name: string)
  {
    exists c :: c in courses && c.name == name
  }

  /** No two stored courses share a name. */
  predicate UniqueNames(courses: seq<Course>)
  {
    forall i, j :: 0 <= i < j < |courses| ==> courses[i].name != courses[j].name
  }

  /** Check-then-insert: a record for `name` added by `user` is appended only
      when no stored course already has that exact name. */
  function Register(courses: seq<Course>, name: string, user: string): (r: seq<Course>)
    ensures HasCourse(r, name)
    ensures |courses| <= |r| <= |courses| + 1 && r[..|courses|] == courses
    ensures |r| == |courses| + 1 <==> !HasCourse(courses, name)
    ensures |r| == |courses| + 1 ==> r[|courses|] == Course(name, user)
    ensures UniqueNames(courses) ==> UniqueNames(r)
  {
    if HasCourse(courses, name) then courses else courses + [Course(name, user)]
  }

  /** How many stored courses are named `name`. */
  function NamedCount(courses: seq<Course>, name: string): nat
  {
    if courses == [] then 0
    else NamedCount(courses[..|courses| - 1], name) + (if courses[|courses| - 1].name == name then 1 else 0)
  }

  lemma {:induction false} NamedCountZero(courses: seq<Course>, name: string)
    ensures NamedCount(courses, name) == 0 <==> !HasCourse(courses, name)
  {
    if courses != [] {
      var init := courses[..|courses| - 1];
      NamedCountZero(init, name);
      assert courses == init + [courses[|courses| - 1]];
      if HasCourse(init, name) {
        var c :| c in init && c.name == name;
        assert c in courses;
      }
    }
  }

  /** Registering a name twice, by anybody, stores it once; the record names
      the user who registered it first. */
  lemma RegisterTwice(courses: seq<Course>, name: string, first: string, second: string)
    requires !HasCourse(courses, name)
    ensures Register(Register(courses, name, first), name, second) == Register(courses, name, first)
    ensures NamedCount(Register(courses, name, first), name) == 1
    ensures Course(name, first) in Register(courses, name, first)
  {
    var r := Register(courses, name, first);
    NamedCountZero(courses, name);
    assert r[..|r| - 1] == courses;
  }

  /** Registering is idempotent whatever was stored before. */
  lemma RegisterIdempotent(courses: seq<Course>, name: string, user: string)
    ensures Register(Register(courses, name, user), name, user) == Register(courses, name, user)
  {
  }

  /** The sort key of a course: the character codes of its name. */
  function NameKey(c: Course): (k: seq<int>)
    ensures |k| == |c.name|
    ensures forall i :: 0 <= i < |k| ==> k[i] == c.name[i] as int
  {
    seq(|c.name|, i requires 0 <= i < |c.name| => c.name[i] as int)
  }

  /** Names with equal keys are equal. */
  lemma NameKeyInjective(a: Course, b: Course)
    requires NameKey(a) == NameKey(b)
    ensures a.name == b.name
  {
    assert |a.name| == |b.name|;
    forall i | 0 <= i < |a.name| ensures a.name[i] == b.name[i] {
      assert NameKey(a)[i] == NameKey(b)[i];
    }
  }
}
