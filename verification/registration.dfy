/**
 * The registration form of the welcome screen (components/WelcomeScreen.tsx).
 * Its only logic is `handleSubmit`: trim both fields, submit only when both
 * trimmed values are non-empty, and submit the trimmed values.
 */
module Registration {
  import opened Wrappers

  /** The student record of types.ts. */
  datatype Student = Student(name: string, className: string)

  /**
   * The code points that ECMAScript's String.prototype.trim removes: the
   * WhiteSpace production (TAB, VT, FF, SPACE, NBSP, ZWNBSP and every code point
   * of category Zs) and the LineTerminator production (LF, CR, LS, PS).
   */
  predicate IsTrimmable(c: char) {
    || c == '\t' || c == '\U{000B}' || c == '\U{000C}' || c == ' '
    || c == '\U{00A0}' || c == '\U{FEFF}' || c == '\U{1680}'
    || ('\U{2000}' <= c <= '\U{200A}')
    || c == '\U{202F}' || c == '\U{205F}' || c == '\U{3000}'
    || c == '\n' || c == '\r' || c == '\U{2028}' || c == '\U{2029}'
  }

  /** A string with no trimmable character at either end. */
  predicate IsTrimmed(s: string) {
    s == [] || (!IsTrimmable(s[0]) && !IsTrimmable(s[|s| - 1]))
  }

  /** A string holding at least one character that trimming keeps. */
  predicate HasVisible(s: string) {
    exists k :: 0 <= k < |s| && !IsTrimmable(s[k])
  }

  /** Number of trimmable characters at the start of `s`. */
  function LeadingSpace(s: string): (n: nat)
    ensures n <= |s|
    ensures forall k :: 0 <= k < n ==> IsTrimmable(s[k])
    ensures n < |s| ==> !IsTrimmable(s[n])
  {
    if s == [] || !IsTrimmable(s[0]) then 0 else 1 + LeadingSpace(s[1..])
  }

  /** Number of trimmable characters at the end of `s`. */
  function TrailingSpace(s: string): (n: nat)
    ensures n <= |s|
    ensures forall k :: |s| - n <= k < |s| ==> IsTrimmable(s[k])
    ensures n < |s| ==> !IsTrimmable(s[|s| - 1 - n])
  {
    if s == [] || !IsTrimmable(s[|s| - 1]) then 0 else 1 + TrailingSpace(s[..|s| - 1])
  }

  /**
   * String.prototype.trim: the infix of `s` left after removing the leading
   * and trailing trimmable characters. Everything removed is trimmable and
   * nothing trimmable is left at either end.
   */
  function Trim(s: string): (r: string)
    ensures |r| <= |s|
    ensures IsTrimmed(r)
    ensures LeadingSpace(s) + |r| <= |s|
    ensures r == s[LeadingSpace(s)..LeadingSpace(s) + |r|]
    ensures forall k :: LeadingSpace(s) + |r| <= k < |s| ==> IsTrimmable(s[k])
    ensures r == [] <==> !HasVisible(s)
  {
    var t := s[LeadingSpace(s)..];
    TrimmedTail(s, t);
    t[..|t| - TrailingSpace(t)]
  }

  /** What `Trim` leaves of `s`, given that `t` is `s` without its leading space. */
  lemma TrimmedTail(s: string, t: string)
    requires t == s[LeadingSpace(s)..]
    ensures var r := t[..|t| - TrailingSpace(t)];
      && (r == [] ==> forall k :: 0 <= k < |s| ==> IsTrimmable(s[k]))
      && (r != [] ==> r[0] == s[LeadingSpace(s)])
      && forall k :: LeadingSpace(s) + |r| <= k < |s| ==> IsTrimmable(s[k])
  {
    var i := LeadingSpace(s);
    forall k | i <= k < |s| ensures s[k] == t[k - i] { }
  }

  /**
   * `Trim` is the one infix of a string that is framed by trimmable
   * characters and has no trimmable character at either end: an independent
   * characterisation of what trim returns.
   */
  lemma {:induction false} TrimOfPadded(pre: string, core: string, post: string)
    requires forall k :: 0 <= k < |pre| ==> IsTrimmable(pre[k])
    requires forall k :: 0 <= k < |post| ==> IsTrimmable(post[k])
    requires core != [] && IsTrimmed(core)
    ensures Trim(pre + core + post) == core
  {
    var s := pre + core + post;
    LeadingSpaceOfPadded(pre, core + post);
    assert s == pre + (core + post);
    var t := s[|pre|..];
    assert t == core + post;
    TrailingSpaceOfPadded(core, post);
  }

  lemma {:induction false} LeadingSpaceOfPadded(pre: string, rest: string)
    requires forall k :: 0 <= k < |pre| ==> IsTrimmable(pre[k])
    requires rest != [] && !IsTrimmable(rest[0])
    ensures LeadingSpace(pre + rest) == |pre|
  {
    if pre != [] {
      assert (pre + rest)[1..] == pre[1..] + rest;
      LeadingSpaceOfPadded(pre[1..], rest);
    } else {
      assert pre + rest == rest;
    }
  }

  lemma {:induction false} TrailingSpaceOfPadded(rest: string, post: string)
    requires forall k :: 0 <= k < |post| ==> IsTrimmable(post[k])
    requires rest != [] && !IsTrimmable(rest[|rest| - 1])
    ensures TrailingSpace(rest + post) == |post|
  {
    if post != [] {
      assert (rest + post)[..|rest + post| - 1] == rest + post[..|post| - 1];
      TrailingSpaceOfPadded(rest, post[..|post| - 1]);
    } else {
      assert rest + post == rest;
    }
  }

  /** Trimming a trimmed value again changes nothing. */
  lemma TrimIdempotent(s: string)
    ensures Trim(Trim(s)) == Trim(s)
  {
    var r := Trim(s);
    if r != [] {
      TrimOfPadded([], r, []);
      assert [] + r + [] == r;
    }
  }

  /**
   * handleSubmit: the student to pass to `onSubmit`, or None when the form
   * does not submit. At most one record is produced per submit event, and
   * the form's own `name` and `className` values are only read.
   */
  function HandleSubmit(name: string, className: string): (r: Option<Student>)
    ensures r.Some? <==> HasVisible(name) && HasVisible(className)
    ensures r.Some? ==> r.value.name == Trim(name) && r.value.className == Trim(className)
    ensures r.Some? ==> r.value.name != [] && IsTrimmed(r.value.name)
    ensures r.Some? ==> r.value.className != [] && IsTrimmed(r.value.className)
  {
    var n, c := Trim(name), Trim(className);
    if n != [] && c != [] then Some(Student(n, c)) else None
  }

  /** A record that `HandleSubmit` can produce. */
  predicate ValidStudent(st: Student) {
    st.name != [] && IsTrimmed(st.name) && st.className != [] && IsTrimmed(st.className)
  }

  /** The fields of a submitted record are fixed points of trim. */
  lemma SubmittedIsTrimmed(name: string, className: string)
    requires HandleSubmit(name, className).Some?
    ensures var st := HandleSubmit(name, className).value;
      ValidStudent(st) && Trim(st.name) == st.name && Trim(st.className) == st.className
  {
    TrimIdempotent(name);
    TrimIdempotent(className);
  }
}
