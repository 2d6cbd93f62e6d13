/**
 * The input schemas of the application (zod object schemas) as parsers from the submitted
 * fields to either the parsed values or the list of issues, in the order zod reports them.
 * A field is `None` when the submitted object lacks it. Each string check that fails adds its
 * message; `.trim()` replaces the value before the checks that follow it.
 */
module Validation {
  import opened Wrappers

  /** One validation issue: the field it concerns and its message. */
  datatype Issue = Issue(path: string, message: string)

  /** A zod parse: the parsed values, or every issue found. */
  datatype Parsed<T> = Success(value: T) | Failure(issues: seq<Issue>)

  /** The characters `String.prototype.trim` removes: JavaScript's WhiteSpace and LineTerminator. */
  const TrimmableChars: set<char> := {
    '\U{9}', '\U{A}', '\U{B}', '\U{C}', '\U{D}', ' ', '\U{A0}', '\U{1680}',
    '\U{2000}', '\U{2001}', '\U{2002}', '\U{2003}', '\U{2004}', '\U{2005}',
    '\U{2006}', '\U{2007}', '\U{2008}', '\U{2009}', '\U{200A}',
    '\U{2028}', '\U{2029}', '\U{202F}', '\U{205F}', '\U{3000}', '\U{FEFF}'
  }

  predicate IsTrimmable(c: char)
  {
    c in TrimmableChars
  }

  /** Every character of `s` is trimmable. */
  predicate AllTrimmable(s: string)
  {
    forall i :: 0 <= i < |s| ==> IsTrimmable(s[i])
  }

  /** The index of the first character at or after `i` that is not trimmable (`|s|` if none is). */
  function LeadEnd(s: string, i: nat): (r: nat)
    requires i <= |s|
    ensures i <= r <= |s|
    ensures forall j :: i <= j < r ==> IsTrimmable(s[j])
    ensures r < |s| ==> !IsTrimmable(s[r])
    decreases |s| - i
  {
    if i < |s| && IsTrimmable(s[i]) then LeadEnd(s, i + 1) else i
  }

  /** The index just after the last character before `j`, and not before `lo`, that is not trimmable. */
  function TrailStart(s: string, lo: nat, j: nat): (r: nat)
    requires lo <= j <= |s|
    ensures lo <= r <= j
    ensures forall k :: r <= k < j ==> IsTrimmable(s[k])
    ensures r > lo ==> !IsTrimmable(s[r - 1])
  {
    if j > lo && IsTrimmable(s[j - 1]) then TrailStart(s, lo, j - 1) else j
  }

  /** How many leading trimmable characters `s` has. */
  function Leading(s: string): (n: nat)
    ensures n <= |s|
  {
    LeadEnd(s, 0)
  }

  /**
   * `s.trim()`: the result is the text of `s` after its trimmable prefix, up to a trimmable
   * suffix, and neither end of a non-empty result is trimmable.
   */
  function Trim(s: string): (r: string)
    ensures Leading(s) + |r| <= |s| && r == s[Leading(s)..Leading(s) + |r|]
    ensures forall j :: 0 <= j < Leading(s) ==> IsTrimmable(s[j])
    ensures forall j :: Leading(s) + |r| <= j < |s| ==> IsTrimmable(s[j])
    ensures r != [] ==> !IsTrimmable(r[0]) && !IsTrimmable(r[|r| - 1])
  {
    var lo := Leading(s);
    s[lo..TrailStart(s, lo, |s|)]
  }

  /** A trimmed string is its own trim. */
  lemma TrimIdempotent(s: string)
    ensures Trim(Trim(s)) == Trim(s)
  {
    var t := Trim(s);
    if t != [] {
      assert Leading(t) == 0;
      assert TrailStart(t, 0, |t|) == |t|;
      assert t[0..|t|] == t;
    }
  }

  /** A string that is all trimmable trims to the empty string, and only such a string does. */
  lemma TrimEmptyIff(s: string)
    ensures Trim(s) == [] <==> AllTrimmable(s)
  {
  }

  /** `requiredString = z.string().trim().min(1, "Required")`: the trimmed value and its issues. */
  function RequiredString(s: string): (r: (string, seq<string>))
    ensures r.0 == Trim(s)
    ensures r.1 == [] <==> Trim(s) != []
    ensures r.1 != [] ==> r.1 == ["Required"]
  {
    var t := Trim(s);
    (t, if |t| < 1 then ["Required"] else [])
  }

  /** A character of the class `[a-zA-Z0-9_-]`. */
  predicate IsUsernameChar(c: char)
  {
    ('a' <= c <= 'z') || ('A' <= c <= 'Z') || ('0' <= c <= '9') || c == '_' || c == '-'
  }

  /** The regular expression `^[a-zA-Z0-9_-]+$`. */
  predicate MatchesUsernamePattern(s: string)
  {
    |s| >= 1 && forall i :: 0 <= i < |s| ==> IsUsernameChar(s[i])
  }

  /** The issues of one present or absent string field, tagged with its name. */
  function FieldIssues(path: string, messages: seq<string>): (r: seq<Issue>)
    ensures |r| == |messages|
    ensures forall i :: 0 <= i < |r| ==> r[i] == Issue(path, messages[i])
  {
    if messages == [] then [] else [Issue(path, messages[0])] + FieldIssues(path, messages[1..])
  }

  /** The issue zod reports for a required key missing from the object. */
  function Missing(path: string): seq<Issue>
  {
    [Issue(path, "Required")]
  }

  /** `requiredString.email(...)`; the address syntax itself is an opaque test `isEmail`. */
  function EmailField(s: Option<string>, isEmail: string -> bool): (r: (string, seq<Issue>))
    ensures r.1 == [] <==> s.Some? && Trim(s.value) != [] && isEmail(Trim(s.value))
    ensures s.Some? ==> r.0 == Trim(s.value)
  {
    if s.None? then ("", Missing("email"))
    else
      var (t, req) := RequiredString(s.value);
      (t, FieldIssues("email", req + (if isEmail(t) then [] else ["Invalid email address"])))
  }

  /** `requiredString.regex(/^[a-zA-Z0-9_-]+$/, ...)`. */
  function UsernameField(s: Option<string>): (r: (string, seq<Issue>))
    ensures r.1 == [] <==> s.Some? && MatchesUsernamePattern(Trim(s.value))
    ensures s.Some? ==> r.0 == Trim(s.value)
  {
    if s.None? then ("", Missing("username"))
    else
      var (t, req) := RequiredString(s.value);
      (t, FieldIssues("username", req + (if MatchesUsernamePattern(t) then [] else ["Only letters, numbers, - and _ allowed"])))
  }

  /** `requiredString.min(8, ...)`. */
  function PasswordField(s: Option<string>): (r: (string, seq<Issue>))
    ensures r.1 == [] <==> s.Some? && |Trim(s.value)| >= 8
    ensures s.Some? ==> r.0 == Trim(s.value)
  {
    if s.None? then ("", Missing("password"))
    else
      var (t, req) := RequiredString(s.value);
      (t, FieldIssues("password", req + (if |t| >= 8 then [] else ["Password must be at least 8 characters"])))
  }

  /** A bare `requiredString` field named `path`. */
  function RequiredField(path: string, s: Option<string>): (r: (string, seq<Issue>))
    ensures r.1 == [] <==> s.Some? && Trim(s.value) != []
    ensures s.Some? ==> r.0 == Trim(s.value)
  {
    if s.None? then ("", Missing(path))
    else
      var (t, req) := RequiredString(s.value);
      (t, FieldIssues(path, req))
  }

  datatype SignUpValues = SignUpValues(email: string, username: string, password: string)

  /** `signUpSchema.safeParse({email, username, password})`. */
  function SignUpSchema(email: Option<string>, username: Option<string>, password: Option<string>,
                        isEmail: string -> bool): (r: Parsed<SignUpValues>)
    ensures r.Success? <==>
      && email.Some? && Trim(email.value) != [] && isEmail(Trim(email.value))
      && username.Some? && MatchesUsernamePattern(Trim(username.value))
      && password.Some? && |Trim(password.value)| >= 8
    ensures r.Success? ==>
      r.value == SignUpValues(Trim(email.value), Trim(username.value), Trim(password.value))
  {
    var e := EmailField(email, isEmail);
    var u := UsernameField(username);
    var p := PasswordField(password);
    var issues := e.1 + u.1 + p.1;
    if issues == [] then Success(SignUpValues(e.0, u.0, p.0)) else Failure(issues)
  }

  datatype LogInValues = LogInValues(username: string, password: string)

  /** `logInSchema.safeParse({username, password})`: both required, no format rule. */
  function LogInSchema(username: Option<string>, password: Option<string>): (r: Parsed<LogInValues>)
    ensures r.Success? <==>
      username.Some? && Trim(username.value) != [] && password.Some? && Trim(password.value) != []
    ensures r.Success? ==> r.value == LogInValues(Trim(username.value), Trim(password.value))
  {
    var u := RequiredField("username", username);
    var p := RequiredField("password", password);
    var issues := u.1 + p.1;
    if issues == [] then Success(LogInValues(u.0, p.0)) else Failure(issues)
  }

  datatype PostValues = PostValues(content: string, mediaIds: seq<string>)

  /** `postSchema.safeParse({content, mediaIds})`: `mediaIds` is required and holds at most 5 ids. */
  function PostSchema(content: Option<string>, mediaIds: Option<seq<string>>): (r: Parsed<PostValues>)
    ensures r.Success? <==>
      content.Some? && Trim(content.value) != [] && mediaIds.Some? && |mediaIds.value| <= 5
    ensures r.Success? ==> r.value == PostValues(Trim(content.value), mediaIds.value)
    ensures mediaIds.None? ==> r.Failure? && Issue("mediaIds", "Required") in r.issues
  {
    var c := RequiredField("content", content);
    var m: seq<Issue> :=
      if mediaIds.None? then Missing("mediaIds")
      else if |mediaIds.value| > 5 then [Issue("mediaIds", "Cannot have more than 5 attachments")]
      else [];
    var issues := c.1 + m;
    if issues == [] then Success(PostValues(c.0, mediaIds.value))
    else
      assert mediaIds.None? ==> issues[|c.1|] == Issue("mediaIds", "Required");
      Failure(issues)
  }

  datatype ProfileValues = ProfileValues(displayName: string, bio: string)

  /** `updateUserProfileSchema.safeParse(...)`: `bio` is not trimmed and may be empty. */
  function UpdateUserProfileSchema(displayName: Option<string>, bio: Option<string>): (r: Parsed<ProfileValues>)
    ensures r.Success? <==>
      displayName.Some? && Trim(displayName.value) != [] && bio.Some? && |bio.value| <= 1000
    ensures r.Success? ==> r.value == ProfileValues(Trim(displayName.value), bio.value)
  {
    var d := RequiredField("displayName", displayName);
    var b: seq<Issue> :=
      if bio.None? then Missing("bio")
      else if |bio.value| > 1000 then [Issue("bio", "Must be at moste 1000 characters")]
      else [];
    var issues := d.1 + b;
    if issues == [] then Success(ProfileValues(d.0, bio.value)) else Failure(issues)
  }
}
