/** The request validators that run before the handlers (middleware/validateMiddleware.js).
    Each inspects fields of the request body and either lets the request through or
    answers 400; `validateUserCreation` alone collects every failing check. */
module Validators {
  import opened Base
  import opened Text

  // ---------------------------------------------------------------------------
  // The e-mail pattern /^[\w-.]+@([\w-]+\.)+[\w-]{2,}$/
  // ---------------------------------------------------------------------------

  /** `\w` without the `u` flag: ASCII letters, digits and underscore. */
  predicate IsWordChar(c: char) {
    ('a' <= c <= 'z') || ('A' <= c <= 'Z') || ('0' <= c <= '9') || c == '_'
  }

  /** `[\w-.]`, the characters of the local part. */
  predicate IsLocalChar(c: char) {
    IsWordChar(c) || c == '-' || c == '.'
  }

  /** `[\w-]`, the characters of a domain label. */
  predicate IsLabelChar(c: char) {
    IsWordChar(c) || c == '-'
  }

  /** Where a left-to-right match of the pattern stands after a prefix of the input:
      before the first character, inside the local part, just after the `@` or a dot
      (`dot` says whether a dot of the domain was read), inside a label of `len`
      characters, or past any possible match. */
  datatype Scan = Start | Local | Gap(dot: bool) | Label(len: nat, dot: bool) | Dead

  function Step(st: Scan, c: char): Scan {
    match st
    case Start => if IsLocalChar(c) then Local else Dead
    case Local => if IsLocalChar(c) then Local else if c == '@' then Gap(false) else Dead
    case Gap(dot) => if IsLabelChar(c) then Label(1, dot) else Dead
    case Label(n, dot) =>
      if IsLabelChar(c) then Label(n + 1, dot) else if c == '.' then Gap(true) else Dead
    case Dead => Dead
  }

  function Run(st: Scan, s: string): Scan
    decreases |s|
  {
    if s == [] then st else Run(Step(st, s[0]), s[1..])
  }

  /** The whole input matched: it ends inside a label of at least two characters and
      the domain has at least one dot. */
  predicate Accepting(st: Scan) {
    st.Label? && st.dot && st.len >= 2
  }

  /** `emailRegex.test(s)`, as a scan of `s` by the pattern. */
  predicate EmailMatches(s: string) {
    Accepting(Run(Start, s))
  }

  /** The pieces of `s` between occurrences of `sep`, as `s.split(sep)` gives them. */
  function Split(s: string, sep: char): (r: seq<string>)
    ensures |r| >= 1
    decreases |s|
  {
    if s == [] then [[]]
    else if s[0] == sep then [[]] + Split(s[1..], sep)
    else
      var t := Split(s[1..], sep);
      [[s[0]] + t[0]] + t[1..]
  }

  /** A string splits into one piece exactly when it does not contain the separator. */
  lemma {:induction false} SplitSingle(s: string, sep: char)
    ensures |Split(s, sep)| == 1 <==> sep !in s
    ensures sep !in s ==> Split(s, sep)[0] == s
    decreases |s|
  {
    if s != [] {
      SplitSingle(s[1..], sep);
      assert s == [s[0]] + s[1..];
    }
  }

  predicate AllLocalChars(s: string) { forall k :: 0 <= k < |s| ==> IsLocalChar(s[k]) }
  predicate AllLabelChars(s: string) { forall k :: 0 <= k < |s| ==> IsLabelChar(s[k]) }

  predicate IsLabel(s: string) { |s| >= 1 && AllLabelChars(s) }

  lemma ConsChars(c: char, w: string)
    ensures AllLabelChars([c] + w) <==> IsLabelChar(c) && AllLabelChars(w)
    ensures AllLocalChars([c] + w) <==> IsLocalChar(c) && AllLocalChars(w)
  {
    var cw := [c] + w;
    assert cw[0] == c;
    assert forall k :: 0 <= k < |w| ==> cw[k + 1] == w[k];
    assert forall k :: 1 <= k < |cw| ==> cw[k] == w[k - 1];
  }

  /** At least two dot-separated non-empty labels, the last one at least two long. */
  predicate IsDomain(d: string) {
    var labels := Split(d, '.');
    && |labels| >= 2
    && (forall i :: 0 <= i < |labels| ==> IsLabel(labels[i]))
    && |labels[|labels| - 1]| >= 2
  }

  /** The shape the pattern describes: a non-empty local part, exactly one `@`, and a
      domain. */
  predicate IsEmailShape(s: string) {
    var parts := Split(s, '@');
    |parts| == 2 && |parts[0]| >= 1 && AllLocalChars(parts[0]) && IsDomain(parts[1])
  }

  /** What remains to be read after a label already `n` characters long: the rest of
      that label, then complete labels, the last of at least two characters, and the
      domain must have a dot somewhere. */
  predicate LabelTail(n: nat, dot: bool, d: string) {
    LabelPieces(n, dot, Split(d, '.'))
  }

  /** `LabelTail` on the pieces between the dots. */
  predicate LabelPieces(n: nat, dot: bool, ls: seq<string>)
    requires |ls| >= 1
  {
    && AllLabelChars(ls[0])
    && (forall i :: 1 <= i < |ls| ==> IsLabel(ls[i]))
    && (if |ls| == 1 then dot && n + |ls[0]| >= 2 else |ls[|ls| - 1]| >= 2)
  }

  /** What remains to be read right after the `@` or a dot. */
  predicate GapTail(dot: bool, d: string) {
    GapPieces(dot, Split(d, '.'))
  }

  /** `GapTail` on the pieces between the dots. */
  predicate GapPieces(dot: bool, ls: seq<string>)
    requires |ls| >= 1
  {
    && (forall i :: 0 <= i < |ls| ==> IsLabel(ls[i]))
    && |ls[|ls| - 1]| >= 2
    && (dot || |ls| >= 2)
  }

  /** Splitting a string that starts with another character than the separator: that
      character joins the first piece, and the other pieces are those of the rest. */
  lemma SplitCons(d: string, sep: char)
    requires d != [] && d[0] != sep
    ensures var ls, t := Split(d, sep), Split(d[1..], sep);
            && |ls| == |t| && ls[0] == [d[0]] + t[0]
            && forall i :: 1 <= i < |ls| ==> ls[i] == t[i]
  {
    var t := Split(d[1..], sep);
    assert Split(d, sep) == [[d[0]] + t[0]] + t[1..];
  }

  /** Splitting a string that starts with the separator: an empty first piece, then
      the pieces of the rest. */
  lemma SplitAtSep(d: string, sep: char)
    requires d != [] && d[0] == sep
    ensures var ls, t := Split(d, sep), Split(d[1..], sep);
            && |ls| == |t| + 1 && ls[0] == []
            && forall i :: 1 <= i < |ls| ==> ls[i] == t[i - 1]
  {
  }

  /** A label character extends the current label by one. */
  lemma LabelTailChar(n: nat, dot: bool, d: string)
    requires d != [] && IsLabelChar(d[0])
    ensures LabelTail(n, dot, d) <==> LabelTail(n + 1, dot, d[1..])
  {
    SplitCons(d, '.');
    PiecesCons(n, dot, d[0], Split(d, '.'), Split(d[1..], '.'));
  }

  /** The pieces-level step behind `LabelTailChar`. */
  lemma PiecesCons(n: nat, dot: bool, c: char, ls: seq<string>, t: seq<string>)
    requires |ls| == |t| >= 1 && ls[0] == [c] + t[0] && IsLabelChar(c)
    requires forall i :: 1 <= i < |ls| ==> ls[i] == t[i]
    ensures LabelPieces(n, dot, ls) <==> LabelPieces(n + 1, dot, t)
  {
    ConsChars(c, t[0]);
    assert (forall i :: 1 <= i < |ls| ==> IsLabel(ls[i])) <==> (forall i :: 1 <= i < |t| ==> IsLabel(t[i]));
    assert ls[|ls| - 1] == t[|t| - 1] || |ls| == 1;
  }

  /** A dot ends the current label, which must be non-empty, and opens a new one. */
  lemma LabelTailDot(n: nat, dot: bool, d: string)
    requires d != [] && d[0] == '.'
    ensures LabelTail(n, dot, d) <==> GapTail(true, d[1..])
  {
    SplitAtSep(d, '.');
    PiecesAtSep(n, dot, Split(d, '.'), Split(d[1..], '.'));
  }

  /** The pieces-level step behind `LabelTailDot`. */
  lemma PiecesAtSep(n: nat, dot: bool, ls: seq<string>, t: seq<string>)
    requires |t| >= 1 && |ls| == |t| + 1 && ls[0] == []
    requires forall i :: 1 <= i < |ls| ==> ls[i] == t[i - 1]
    ensures LabelPieces(n, dot, ls) <==> GapPieces(true, t)
  {
    assert (forall i :: 0 <= i < |t| ==> IsLabel(t[i])) <==> (forall i :: 1 <= i < |ls| ==> IsLabel(ls[i])) by {
      assert forall i :: 0 <= i < |t| ==> t[i] == ls[i + 1];
    }
    assert ls[|ls| - 1] == t[|t| - 1];
  }

  /** Any other character cannot continue a label. */
  lemma LabelTailOther(n: nat, dot: bool, d: string)
    requires d != [] && !IsLabelChar(d[0]) && d[0] != '.'
    ensures !LabelTail(n, dot, d)
  {
    SplitCons(d, '.');
    assert Split(d, '.')[0][0] == d[0];
  }

  lemma {:induction false} LabelScan(n: nat, dot: bool, d: string)
    requires n >= 1
    ensures Accepting(Run(Label(n, dot), d)) <==> LabelTail(n, dot, d)
    decreases |d|, 1
  {
    if d == [] {
    } else if IsLabelChar(d[0]) {
      LabelScan(n + 1, dot, d[1..]);
      LabelTailChar(n, dot, d);
    } else if d[0] == '.' {
      GapScan(true, d[1..]);
      LabelTailDot(n, dot, d);
      assert Run(Label(n, dot), d) == Run(Gap(true), d[1..]);
    } else {
      LabelTailOther(n, dot, d);
      assert Run(Label(n, dot), d) == Run(Dead, d[1..]);
      DeadStaysDead(d[1..]);
    }
  }

  /** Right after the `@` or a dot, a character other than a label character leaves
      an empty or malformed first label. */
  lemma GapTailOther(dot: bool, d: string)
    requires d != [] && !IsLabelChar(d[0])
    ensures !GapTail(dot, d)
  {
    if d[0] == '.' {
      SplitAtSep(d, '.');
    } else {
      SplitCons(d, '.');
      assert Split(d, '.')[0][0] == d[0];
    }
  }

  lemma {:induction false} GapScan(dot: bool, d: string)
    ensures Accepting(Run(Gap(dot), d)) <==> GapTail(dot, d)
    decreases |d|, 2
  {
    if d == [] {
    } else if IsLabelChar(d[0]) {
      LabelScan(1, dot, d[1..]);
      GapThenLabel(dot, d);
      assert Run(Gap(dot), d) == Run(Label(1, dot), d[1..]);
    } else {
      GapTailOther(dot, d);
      DeadStaysDead(d[1..]);
    }
  }

  /** A label character right after the `@` or a dot starts a label of length one. */
  lemma GapThenLabel(dot: bool, d: string)
    requires d != [] && IsLabelChar(d[0])
    ensures GapTail(dot, d) <==> LabelTail(1, dot, d[1..])
  {
    SplitCons(d, '.');
    GapPiecesCons(dot, d[0], Split(d, '.'), Split(d[1..], '.'));
  }

  /** The pieces-level step behind `GapThenLabel`. */
  lemma GapPiecesCons(dot: bool, c: char, ls: seq<string>, t: seq<string>)
    requires |ls| == |t| >= 1 && ls[0] == [c] + t[0] && IsLabelChar(c)
    requires forall i :: 1 <= i < |ls| ==> ls[i] == t[i]
    ensures GapPieces(dot, ls) <==> LabelPieces(1, dot, t)
  {
    ConsChars(c, t[0]);
    assert IsLabel(ls[0]) <==> AllLabelChars(t[0]);
    assert (forall i :: 0 <= i < |ls| ==> IsLabel(ls[i])) <==>
           AllLabelChars(t[0]) && (forall i :: 1 <= i < |t| ==> IsLabel(t[i])) by {
      if AllLabelChars(t[0]) && (forall i :: 1 <= i < |t| ==> IsLabel(t[i])) {
        forall i | 0 <= i < |ls| ensures IsLabel(ls[i]) {
          if i > 0 { assert ls[i] == t[i]; }
        }
      }
    }
    assert ls[|ls| - 1] == t[|t| - 1] || |ls| == 1;
  }

  lemma {:induction false} DeadStaysDead(s: string)
    ensures Run(Dead, s) == Dead
    decreases |s|
  {
    if s != [] { DeadStaysDead(s[1..]); }
  }

  /** Reading the local part: after at least one local character, the scan accepts
      the rest exactly when it is more local characters, one `@` and a domain. */
  lemma {:induction false} LocalScan(s: string)
    ensures Accepting(Run(Local, s)) <==>
              var parts := Split(s, '@');
              |parts| == 2 && AllLocalChars(parts[0]) && IsDomain(parts[1])
    decreases |s|
  {
    if s == [] {
    } else if IsLocalChar(s[0]) {
      LocalScan(s[1..]);
      var t := Split(s[1..], '@');
      var parts := Split(s, '@');
      assert parts == [[s[0]] + t[0]] + t[1..];
      ConsChars(s[0], t[0]);
    } else if s[0] == '@' {
      var d := s[1..];
      GapScan(false, d);
      SplitSingle(d, '@');
      var parts := Split(s, '@');
      assert parts == [[]] + Split(d, '@');
      assert IsDomain(d) ==> '@' !in d by {
        if IsDomain(d) && '@' in d {
          var k :| 0 <= k < |d| && d[k] == '@';
          DomainHasNoAt(d, k);
        }
      }
    } else {
      var parts := Split(s, '@');
      assert parts[0] == [s[0]] + Split(s[1..], '@')[0];
      assert !IsLocalChar(parts[0][0]);
      DeadStaysDead(s[1..]);
    }
  }

  /** No character of a domain is an `@`. */
  lemma {:induction false} DomainHasNoAt(d: string, k: nat)
    requires IsDomain(d) && k < |d|
    ensures d[k] != '@'
  {
    PiecesCoverLabels(d, k);
  }

  /** Every character of `s` is the separator or a character of one of its pieces. */
  lemma {:induction false} PiecesCoverLabels(d: string, k: nat)
    requires k < |d|
    ensures d[k] == '.' || exists i, j :: 0 <= i < |Split(d, '.')| && 0 <= j < |Split(d, '.')[i]|
                                        && Split(d, '.')[i][j] == d[k]
    decreases |d|
  {
    var ls, t := Split(d, '.'), Split(d[1..], '.');
    if d[0] == '.' {
      SplitAtSep(d, '.');
      if k > 0 && d[k] != '.' {
        PiecesCoverLabels(d[1..], k - 1);
        var i, j :| 0 <= i < |t| && 0 <= j < |t[i]| && t[i][j] == d[1..][k - 1];
        assert ls[i + 1][j] == d[k];
      }
    } else {
      SplitCons(d, '.');
      if k == 0 {
        assert ls[0][0] == d[0];
      } else if d[k] != '.' {
        PiecesCoverLabels(d[1..], k - 1);
        var i, j :| 0 <= i < |t| && 0 <= j < |t[i]| && t[i][j] == d[1..][k - 1];
        if i == 0 {
          assert ls[0][j + 1] == d[k];
        } else {
          assert ls[i][j] == d[k];
        }
      }
    }
  }

  /** The scan accepts exactly the strings of the shape the pattern describes: a
      non-empty local part over [A-Za-z0-9_.-], one `@`, then at least two non-empty
      dot-separated labels over [A-Za-z0-9_-], the last of at least two characters. */
  lemma {:induction false} EmailMatchesExactlyShape(s: string)
    ensures EmailMatches(s) <==> IsEmailShape(s)
  {
    if s == [] {
    } else if IsLocalChar(s[0]) {
      LocalScan(s[1..]);
      var t := Split(s[1..], '@');
      var parts := Split(s, '@');
      assert parts == [[s[0]] + t[0]] + t[1..];
      ConsChars(s[0], t[0]);
    } else {
      var parts := Split(s, '@');
      assert !(|parts[0]| >= 1 && AllLocalChars(parts[0])) by {
        if s[0] == '@' {
          assert parts == [[]] + Split(s[1..], '@');
        } else {
          assert parts[0] == [s[0]] + Split(s[1..], '@')[0];
          ConsChars(s[0], Split(s[1..], '@')[0]);
        }
      }
      DeadStaysDead(s[1..]);
    }
  }

  // ---------------------------------------------------------------------------
  // validateUserCreation
  // ---------------------------------------------------------------------------

  /** One entry of the `errors` array answered by `validateUserCreation`; `Field` and
      `Message` give its two properties. */
  datatype FieldError = UsernameRequired | InvalidEmail | EmailExists | PhoneNotTenDigits {
    function Field(): string {
      match this
      case UsernameRequired => "username"
      case InvalidEmail => "email"
      case EmailExists => "email"
      case PhoneNotTenDigits => "phone"
    }
    function Message(): string {
      match this
      case UsernameRequired => "Username is required"
      case InvalidEmail => "Invalid email"
      case EmailExists => "Email already exists"
      case PhoneNotTenDigits => "Phone must be 10 digits"
    }
    /** The position of the check in the order `validateUserCreation` runs them. */
    function CheckOrder(): nat {
      match this
      case UsernameRequired => 0
      case InvalidEmail => 1
      case EmailExists => 2
      case PhoneNotTenDigits => 3
    }
  }

  /** `regex.test(v)` on a body field: an absent field is tested as the text
      "undefined", which neither pattern matches. */
  predicate PhoneMatches(phone: Option<string>) {
    phone.Some? && IsTenDigits(phone.value)
  }

  predicate EmailFieldMatches(email: Option<string>) {
    email.Some? && EmailMatches(email.value)
  }

  /** `User.findOne({ email })` finds a user: the one registered with that e-mail,
      or, when none was sent, any user. */
  predicate EmailFound(email: Option<string>, registered: set<string>) {
    if email.Some? then email.value in registered else registered != {}
  }

  /** The four checks of `validateUserCreation`, each appending its error when it
      fails: a blank username, an e-mail the pattern rejects, an e-mail some user is
      registered with (`registered` stands for the store's users' e-mails, every user
      having one), and a phone that is not ten digits. The request passes when the
      list is empty. The lookup `findOne({ email })` with no e-mail sent has an
      undefined filter value, which Mongoose drops: it then finds any user at all, so
      "Email already exists" is reported whenever some user exists. */
  function UserCreationErrors(username: Option<string>, email: Option<string>,
                              phone: Option<string>, registered: set<string>): (errors: seq<FieldError>)
    ensures UsernameRequired in errors <==> !HasText(username)
    ensures InvalidEmail in errors <==> !EmailFieldMatches(email)
    ensures EmailExists in errors <==> EmailFound(email, registered)
    ensures PhoneNotTenDigits in errors <==> !PhoneMatches(phone)
    ensures forall i, j :: 0 <= i < j < |errors| ==> errors[i].CheckOrder() < errors[j].CheckOrder()
  {
    (if !HasText(username) then [UsernameRequired] else [])
    + (if !EmailFieldMatches(email) then [InvalidEmail] else [])
    + (if EmailFound(email, registered) then [EmailExists] else [])
    + (if !PhoneMatches(phone) then [PhoneNotTenDigits] else [])
  }

  /** Every failing check is reported, not only the first: the request passes
      exactly when all four checks pass, and a request failing all four gets four
      errors. */
  lemma {:induction false} UserCreationReportsEveryFailure(username: Option<string>, email: Option<string>,
                                                          phone: Option<string>, registered: set<string>)
    ensures var errors := UserCreationErrors(username, email, phone, registered);
            && (errors == [] <==> HasText(username) && EmailFieldMatches(email)
                                  && !EmailFound(email, registered) && PhoneMatches(phone))
            && ((!HasText(username) && !EmailFieldMatches(email) && EmailFound(email, registered)
                 && !PhoneMatches(phone)) ==> |errors| == 4)
  {
    var errors := UserCreationErrors(username, email, phone, registered);
    if !HasText(username) && !EmailFieldMatches(email) && EmailFound(email, registered)
       && !PhoneMatches(phone) {
      assert errors == [UsernameRequired, InvalidEmail, EmailExists, PhoneNotTenDigits];
    }
  }

  // ---------------------------------------------------------------------------
  // validateGroupCreation
  // ---------------------------------------------------------------------------

  const GroupNameRequired := BadRequest("Group name is required")
  const GroupNameTooLong := BadRequest("Group name must be less than 100 characters")
  const GroupNameTaken := BadRequest("Group name already exists")
  const GroupDescriptionTooLong := BadRequest("Group description must be less than 500 characters")

  /** `validateGroupCreation`: stops at the first failing check, in this order: the
      name is missing or blank; the name as sent is longer than 100 UTF-16 units; the
      trimmed name is the name of an existing group (`groupNames`); the description
      is longer than 500 units. */
  function ValidateGroupCreation(name: Option<string>, description: Option<string>,
                                 groupNames: set<string>): (o: Outcome)
    ensures o == Fail(GroupNameRequired) <==> !HasText(name)
    ensures o == Fail(GroupNameTooLong) <==> HasText(name) && JsLength(name.value) > 100
    ensures o == Fail(GroupNameTaken) <==>
              HasText(name) && JsLength(name.value) <= 100 && Trim(name.value) in groupNames
    ensures o == Fail(GroupDescriptionTooLong) <==>
              HasText(name) && JsLength(name.value) <= 100 && Trim(name.value) !in groupNames
              && description.Some? && JsLength(description.value) > 500
    ensures o == Pass <==>
              HasText(name) && JsLength(name.value) <= 100 && Trim(name.value) !in groupNames
              && (description.None? || JsLength(description.value) <= 500)
  {
    if !Truthy(name) || Trim(name.value) == "" then Fail(GroupNameRequired)
    else if JsLength(name.value) > 100 then Fail(GroupNameTooLong)
    else if Trim(name.value) in groupNames then Fail(GroupNameTaken)
    else if Truthy(description) && JsLength(description.value) > 500 then Fail(GroupDescriptionTooLong)
    else Pass
  }

  // ---------------------------------------------------------------------------
  // Post and comment content
  // ---------------------------------------------------------------------------

  const ContentRequired := BadRequest("Content is required")
  const PostTooLong := BadRequest("Post content must be less than 300 characters")
  const CommentTooLong := BadRequest("Comment must be less than 300 characters")
  const PostIdRequired := BadRequest("Valid postId is required")

  datatype ContentKind = PostContent | CommentContent

  /** The content check shared by `validatePostCreation`, `validatePostUpdate` and
      `validateCommentUpdate`, and the first two checks of `validateCommentCreation`:
      present and not blank, and at most 300 UTF-16 units as sent (exactly 300 is
      accepted). Only the message of the length error depends on the kind. */
  function ValidateContent(content: Option<string>, kind: ContentKind): (o: Outcome)
    ensures o == Pass <==> HasText(content) && JsLength(content.value) <= 300
    ensures o == Fail(ContentRequired) <==> !HasText(content)
    ensures o.Fail? && o != Fail(ContentRequired) ==>
              o.error == (if kind == PostContent then PostTooLong else CommentTooLong)
  {
    if !Truthy(content) || Trim(content.value) == "" then Fail(ContentRequired)
    else if JsLength(content.value) > 300 then
      Fail(if kind == PostContent then PostTooLong else CommentTooLong)
    else Pass
  }

  /** `validateCommentCreation`: the content check, then a post id that is present
      and well formed. */
  function ValidateCommentCreation(content: Option<string>, postId: Option<Ref>): (o: Outcome)
    ensures o == Pass <==> HasText(content) && JsLength(content.value) <= 300
                           && postId.Some? && IsValidRef(postId.value)
    ensures o == Fail(PostIdRequired) <==> ValidateContent(content, CommentContent) == Pass
                                           && !(postId.Some? && IsValidRef(postId.value))
    ensures ValidateContent(content, CommentContent).Fail? ==> o == ValidateContent(content, CommentContent)
  {
    var c := ValidateContent(content, CommentContent);
    if c.Fail? then c
    else if postId.None? || !IsValidRef(postId.value) then Fail(PostIdRequired)
    else Pass
  }

  // ---------------------------------------------------------------------------
  // validateUserUpdate
  // ---------------------------------------------------------------------------

  const UsernameEmpty := BadRequest("Username cannot be empty")
  const PhoneFormat := BadRequest("Phone number must be exactly 10 digits")

  /** `validateUserUpdate`: an absent (or empty) field is not checked; a username sent
      must not be blank, and a phone sent must be ten digits as sent, untrimmed. */
  function ValidateUserUpdate(username: Option<string>, phone: Option<string>): (o: Outcome)
    ensures o == Fail(UsernameEmpty) <==> Truthy(username) && IsBlank(username.value)
    ensures o == Fail(PhoneFormat) <==> !(Truthy(username) && IsBlank(username.value))
                                         && Truthy(phone) && !IsTenDigits(phone.value)
    ensures o == Pass <==> !(Truthy(username) && IsBlank(username.value))
                           && !(Truthy(phone) && !IsTenDigits(phone.value))
  {
    if Truthy(username) && Trim(username.value) == "" then Fail(UsernameEmpty)
    else if Truthy(phone) && !IsTenDigits(phone.value) then Fail(PhoneFormat)
    else Pass
  }
}
