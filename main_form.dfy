/**
 * The batch classifier of `MainForm` (src/AdUserStatus/MainForm.cs): every input
 * record is looked up in the directory, by email first and then by short name, and
 * lands in exactly one of four buckets (Enabled, Disabled, NotFound, External). The
 * lookups are the two searches of `LdapService` (`Directory`, built by `Connect` from
 * the oracle `Service`); the cancellation token is the index of the first record
 * before which it is seen cancelled; progress reports are returned in the order they
 * are made.
 */
module MainForm {
  import opened Wrappers
  import opened Text
  import opened Models
  import opened LdapService

  // ---------------------------------------------------------------------------
  // One record

  /** A call of one of the two lookups of the `LdapService` object. */
  datatype Call = ByEmail(email: string) | BySam(sam: string)

  /** The two lookups, as seen by the classifier: what each returns or raises. */
  datatype Directory = Directory(
    byEmail: string -> Result<Projection, Fault>,
    bySam: string -> Result<Projection, Fault>)

  /** The lookups of an `LdapService` bound to `svc`. */
  function Connect(svc: Service): Directory {
    Directory(e => FindByEmail(svc, e).result, s => FindBySamAccountName(svc, s).result)
  }

  /** The outcome of the lookups for one record and the calls made, in order. */
  datatype Resolution = Resolution(result: Result<Projection, Fault>, calls: seq<Call>)

  /** What handling one record produces: the result record and the lookup calls made. */
  datatype Step = Step(user: UserDto, calls: seq<Call>)

  /** `email.Contains('@') ? email.Split('@')[1].Trim().ToLowerInvariant() : null`. */
  function EmailDomain(email: string): (d: Option<string>)
    ensures d.Some? <==> '@' in email
  {
    if '@' in email then
      SplitCount(email, '@');
      Some(Lower(Trim(Split(email, '@')[1])))
    else None
  }

  lemma SplitCount(s: string, c: char)
    requires c in s
    ensures |Split(s, c)| >= 2
  {
  }

  /** `!string.IsNullOrWhiteSpace(domain) && internalDomains.Contains(domain)`, with the
      case-insensitive set held as its case-folded keys. */
  predicate IsInternal(domains: set<string>, domain: Option<string>) {
    domain.Some? && !IsBlank(domain.value) && Lower(domain.value) in domains
  }

  /** The bucket of a found account: Enabled, Disabled, or NotFound when the state is unknown. */
  function CategoryOf(enabled: Option<bool>): (c: string)
    ensures IsCategory(c)
    ensures c == EnabledTag <==> enabled == Some(true)
    ensures c == DisabledTag <==> enabled == Some(false)
  {
    match enabled
    case Some(true) => EnabledTag
    case Some(false) => DisabledTag
    case None => NotFoundTag
  }

  /** The two lookups: by email when the email is not blank, then by short name when
      nothing was found and the short name is not blank. A raised fault stops there. */
  function Resolve(dir: Directory, email: string, samIn: string): Resolution {
    var byEmail := if IsBlank(email) then Resolution(Ok(NotFound), []) else Resolution(dir.byEmail(email), [ByEmail(email)]);
    if byEmail.result.Err? then byEmail
    else if !byEmail.result.value.found && !IsBlank(samIn) then
      Resolution(dir.bySam(samIn), byEmail.calls + [BySam(samIn)])
    else byEmail
  }

  /** The record a raised exception turns into: the raw row fields, NotFound. */
  function FaultedRecord(row: UserDto): UserDto {
    UserDto(row.samAccountName, row.displayName, row.email, None, NotFoundTag)
  }

  /** How one input record is handled, the body of the loop in `ProcessUsers`. */
  function Classify(dir: Directory, domains: set<string>, row: UserDto): (s: Step)
    ensures IsCategory(s.user.category)
  {
    var email := Trim(row.email.GetOr(""));
    var samIn := Trim(row.samAccountName);
    if IsBlank(email) && IsBlank(samIn) then
      Step(UserDto(row.samAccountName, Some(row.displayName.GetOr("")), Some(row.email.GetOr("")), None, NotFoundTag), [])
    else ClassifyResolved(domains, row, email, samIn, Resolve(dir, email, samIn))
  }

  /** The record made from the outcome `l` of the lookups for the trimmed `email` and
      `samIn`: the raw row on a fault, the directory's data when found, otherwise the
      input with the bucket chosen by the email domain. */
  function ClassifyResolved(domains: set<string>, row: UserDto, email: string, samIn: string, l: Resolution): (s: Step)
    ensures IsCategory(s.user.category)
    ensures s.calls == l.calls
  {
    match l.result
    case Err(_) => Step(FaultedRecord(row), l.calls)
    case Ok(res) =>
      if res.found then
        Step(UserDto(res.sam.GetOr(samIn), res.displayName.OrElse(row.displayName),
                     if IsBlank(email) then res.upn.OrElse(row.email) else Some(email),
                     res.enabled, CategoryOf(res.enabled)), l.calls)
      else
        Step(UserDto(samIn, row.displayName, Some(email), None,
                     if IsInternal(domains, EmailDomain(email)) then NotFoundTag else ExternalTag), l.calls)
  }

  /** The two lookups of the loop body: by email when the email is not blank, then by
      short name when nothing was found and the short name is not blank. */
  method LookUp(dir: Directory, email: string, samIn: string) returns (result: Result<Projection, Fault>, calls: seq<Call>)
    ensures Resolution(result, calls) == Resolve(dir, email, samIn)
  {
    result, calls := Ok(NotFound), [];
    if !IsBlank(email) {
      result := dir.byEmail(email);
      calls := [ByEmail(email)];
      if result.Err? {
        return;
      }
    }
    if !result.value.found && !IsBlank(samIn) {
      result := dir.bySam(samIn);
      calls := calls + [BySam(samIn)];
    }
  }

  /** The loop body of `ProcessUsers` for one record, with its try/catch: a fault from
      either lookup is caught and turns the record into a NotFound copy of the row. */
  method ProcessRecord(dir: Directory, domains: set<string>, row: UserDto) returns (user: UserDto, calls: seq<Call>)
    ensures Step(user, calls) == Classify(dir, domains, row)
  {
    var email := Trim(row.email.GetOr(""));
    var samIn := Trim(row.samAccountName);
    var domain := EmailDomain(email);
    if IsBlank(email) && IsBlank(samIn) {
      user := UserDto(row.samAccountName, Some(row.displayName.GetOr("")), Some(row.email.GetOr("")), None, NotFoundTag);
      calls := [];
      return;
    }
    var result;
    result, calls := LookUp(dir, email, samIn);
    assert Classify(dir, domains, row) == ClassifyResolved(domains, row, email, samIn, Resolution(result, calls));
    if result.Err? {
      user := FaultedRecord(row);
    } else if result.value.found {
      var res := result.value;
      user := UserDto(res.sam.GetOr(samIn), res.displayName.OrElse(row.displayName),
                      if IsBlank(email) then res.upn.OrElse(row.email) else Some(email),
                      res.enabled, CategoryOf(res.enabled));
    } else {
      var isInternal := domain.Some? && !IsBlank(domain.value) && Lower(domain.value) in domains;
      user := UserDto(samIn, row.displayName, Some(email), None, if isInternal then NotFoundTag else ExternalTag);
    }
  }

  // ---------------------------------------------------------------------------
  // Properties of one record

  /** A row whose trimmed email and short name are both blank is NotFound with an unknown
      state and makes no lookup. */
  lemma BlankRecordSendsNothing(dir: Directory, domains: set<string>, row: UserDto)
    requires IsBlank(Trim(row.email.GetOr(""))) && IsBlank(Trim(row.samAccountName))
    ensures Classify(dir, domains, row).calls == []
    ensures Classify(dir, domains, row).user.category == NotFoundTag
    ensures Classify(dir, domains, row).user.enabled.None?
  {
  }

  /** Lookup order: the email lookup comes first and only for a non-blank email; the
      short-name lookup follows only for a non-blank short name, and only when there was
      no email lookup or it found nothing without raising. Nothing else is sent. */
  lemma LookupOrder(dir: Directory, domains: set<string>, row: UserDto)
    ensures var email, samIn := Trim(row.email.GetOr("")), Trim(row.samAccountName);
      var emailMissed := IsBlank(email) || (dir.byEmail(email).Ok? && !dir.byEmail(email).value.found);
      Classify(dir, domains, row).calls
        == (if IsBlank(email) then [] else [ByEmail(email)])
         + (if !IsBlank(samIn) && emailMissed then [BySam(samIn)] else [])
  {
    var email, samIn := Trim(row.email.GetOr("")), Trim(row.samAccountName);
    if !(IsBlank(email) && IsBlank(samIn)) {
      assert Classify(dir, domains, row).calls == Resolve(dir, email, samIn).calls;
      ResolveCalls(dir, email, samIn);
    }
  }

  lemma ResolveCalls(dir: Directory, email: string, samIn: string)
    ensures var emailMissed := IsBlank(email) || (dir.byEmail(email).Ok? && !dir.byEmail(email).value.found);
      Resolve(dir, email, samIn).calls
        == (if IsBlank(email) then [] else [ByEmail(email)])
         + (if !IsBlank(samIn) && emailMissed then [BySam(samIn)] else [])
  {
  }

  /** A found account: the bucket follows the account state, the short name and the
      display name are the directory's (or the input's), and the email is the trimmed input unless
      that is blank, in which case it is the directory UPN or the raw input. */
  lemma FoundRecord(dir: Directory, domains: set<string>, row: UserDto)
    requires var email, samIn := Trim(row.email.GetOr("")), Trim(row.samAccountName);
      !(IsBlank(email) && IsBlank(samIn))
      && Resolve(dir, email, samIn).result.Ok? && Resolve(dir, email, samIn).result.value.found
    ensures var email, samIn := Trim(row.email.GetOr("")), Trim(row.samAccountName);
      var res := Resolve(dir, email, samIn).result.value;
      var u := Classify(dir, domains, row).user;
      && u.enabled == res.enabled
      && (u.category == EnabledTag <==> res.enabled == Some(true))
      && (u.category == DisabledTag <==> res.enabled == Some(false))
      && (u.category == NotFoundTag <==> res.enabled.None?)
      && u.samAccountName == (if res.sam.Some? then res.sam.value else samIn)
      && u.displayName == (if res.displayName.Some? then res.displayName else row.displayName)
      && u.email == (if !IsBlank(email) then Some(email) else if res.upn.Some? then res.upn else row.email)
  {
    var email, samIn := Trim(row.email.GetOr("")), Trim(row.samAccountName);
    var l := Resolve(dir, email, samIn);
    assert Classify(dir, domains, row) == ClassifyResolved(domains, row, email, samIn, l);
    FoundResolved(domains, row, email, samIn, l);
  }

  lemma FoundResolved(domains: set<string>, row: UserDto, email: string, samIn: string, l: Resolution)
    requires l.result.Ok? && l.result.value.found
    ensures var res, u := l.result.value, ClassifyResolved(domains, row, email, samIn, l).user;
      && u.enabled == res.enabled
      && (u.category == EnabledTag <==> res.enabled == Some(true))
      && (u.category == DisabledTag <==> res.enabled == Some(false))
      && (u.category == NotFoundTag <==> res.enabled.None?)
      && u.samAccountName == (if res.sam.Some? then res.sam.value else samIn)
      && u.displayName == (if res.displayName.Some? then res.displayName else row.displayName)
      && u.email == (if !IsBlank(email) then Some(email) else if res.upn.Some? then res.upn else row.email)
  {
  }

  /** An account the directory does not know keeps the trimmed input names and email,
      has no account state, and is NotFound exactly when its email domain is a
      non-blank internal domain, and External otherwise. */
  lemma NotFoundRecord(dir: Directory, domains: set<string>, row: UserDto)
    requires var email, samIn := Trim(row.email.GetOr("")), Trim(row.samAccountName);
      !(IsBlank(email) && IsBlank(samIn))
      && Resolve(dir, email, samIn).result.Ok? && !Resolve(dir, email, samIn).result.value.found
    ensures var email, samIn := Trim(row.email.GetOr("")), Trim(row.samAccountName);
      var u := Classify(dir, domains, row).user;
      && u.samAccountName == samIn && u.displayName == row.displayName && u.email == Some(email)
      && u.enabled.None?
      && (u.category == NotFoundTag <==> IsInternal(domains, EmailDomain(email)))
      && (u.category == ExternalTag <==> !IsInternal(domains, EmailDomain(email)))
  {
    var email, samIn := Trim(row.email.GetOr("")), Trim(row.samAccountName);
    assert Classify(dir, domains, row) == ClassifyResolved(domains, row, email, samIn, Resolve(dir, email, samIn));
  }

  /** In particular an unknown account whose email has no `@` is External, never NotFound. */
  lemma NoDomainIsExternal(dir: Directory, domains: set<string>, row: UserDto)
    requires var email, samIn := Trim(row.email.GetOr("")), Trim(row.samAccountName);
      '@' !in email && !(IsBlank(email) && IsBlank(samIn))
      && Resolve(dir, email, samIn).result.Ok? && !Resolve(dir, email, samIn).result.value.found
    ensures Classify(dir, domains, row).user.category == ExternalTag
  {
    var email, samIn := Trim(row.email.GetOr("")), Trim(row.samAccountName);
    assert Classify(dir, domains, row) == ClassifyResolved(domains, row, email, samIn, Resolve(dir, email, samIn));
  }

  /** A lookup that raises leaves one NotFound record carrying the raw row fields. */
  lemma FaultedLookup(dir: Directory, domains: set<string>, row: UserDto)
    requires var email, samIn := Trim(row.email.GetOr("")), Trim(row.samAccountName);
      !(IsBlank(email) && IsBlank(samIn)) && Resolve(dir, email, samIn).result.Err?
    ensures Classify(dir, domains, row).user
      == UserDto(row.samAccountName, row.displayName, row.email, None, NotFoundTag)
  {
    var email, samIn := Trim(row.email.GetOr("")), Trim(row.samAccountName);
    var l := Resolve(dir, email, samIn);
    assert l.result.Err?;
    assert Classify(dir, domains, row) == Step(FaultedRecord(row), l.calls);
  }

  /** The domain is the text between the first and the second `@` (or the end),
      trimmed and lower-cased. */
  lemma EmailDomainIsSecondPiece(local: string, domain: string, rest: string)
    requires '@' !in local && '@' !in domain
    requires rest == [] || rest[0] == '@'
    ensures EmailDomain(local + ['@'] + domain + rest) == Some(Lower(Trim(domain)))
  {
    var email := local + ['@'] + (domain + rest);
    assert local + ['@'] + domain + rest == email;
    assert email[|local|] == '@';
    SplitPrefix(local, domain + rest, '@');
    SecondPiece(domain, rest);
    assert Split(email, '@')[1] == domain;
  }

  lemma SecondPiece(domain: string, rest: string)
    requires '@' !in domain
    requires rest == [] || rest[0] == '@'
    ensures Split(domain + rest, '@')[0] == domain
  {
    if rest == [] {
      assert domain + rest == domain;
      SplitFree(domain, '@');
    } else {
      assert domain + rest == domain + ['@'] + rest[1..];
      SplitPrefix(domain, rest[1..], '@');
    }
  }

  // ---------------------------------------------------------------------------
  // The whole batch

  /** The per-record handling of a run against `dir` with the internal `domains`. */
  function Classifier(dir: Directory, domains: set<string>): UserDto -> Step {
    row => Classify(dir, domains, row)
  }

  /** The result records of the rows, in input order. */
  function Results(step: UserDto -> Step, rows: seq<UserDto>): (r: seq<UserDto>)
    ensures |r| == |rows|
    ensures forall i | 0 <= i < |rows| :: r[i] == step(rows[i]).user
  {
    if rows == [] then []
    else Results(step, rows[..|rows| - 1]) + [step(rows[|rows| - 1]).user]
  }

  /** The searches the rows send, in order. */
  function Calls(step: UserDto -> Step, rows: seq<UserDto>): seq<Call> {
    if rows == [] then []
    else Calls(step, rows[..|rows| - 1]) + step(rows[|rows| - 1]).calls
  }

  /** The four result lists. */
  datatype Buckets = Buckets(enabled: seq<UserDto>, disabled: seq<UserDto>, notFound: seq<UserDto>, external: seq<UserDto>)

  /** The four lists of records, each filtered by its category, in input order. */
  function Sort(us: seq<UserDto>): Buckets {
    Buckets(WithCategory(us, EnabledTag), WithCategory(us, DisabledTag),
            WithCategory(us, NotFoundTag), WithCategory(us, ExternalTag))
  }

  /** How a run ends: the four lists, cancellation (`OperationCanceledException`), or a
      fault while discovering the internal domains, which happens before the loop and
      outside its try/catch. */
  datatype Outcome = Completed(buckets: Buckets) | Cancelled | DiscoveryFaulted

  /** The per-record progress reports `(i + 1, n)` after the first `k` records. */
  function Progress(k: nat, n: int): (r: seq<(int, int)>)
    ensures |r| == k && forall i | 0 <= i < k :: r[i] == (i + 1, n)
  {
    if k == 0 then [] else Progress(k - 1, n) + [(k, n)]
  }

  /** The number of records handled before the first cancellation check that throws. */
  function Handled(n: nat, cancelAt: nat): nat {
    if cancelAt < n then cancelAt else n
  }

  /**
   * `ProcessUsers`: discovers the internal domains, then handles the records in order
   * (`RunBatch`). A fault during discovery escapes before any record is handled.
   */
  method ProcessUsers(svc: Service, input: seq<UserDto>, cancelAt: nat)
    returns (outcome: Outcome, reports: seq<(int, int)>, lookups: seq<Call>)
    ensures InternalDomains(svc).Err? ==> outcome == DiscoveryFaulted && reports == [] && lookups == []
    ensures InternalDomains(svc).Ok? ==>
      var step, n := Classifier(Connect(svc), InternalDomains(svc).value), |input|;
      var k := Handled(n, cancelAt);
      && lookups == Calls(step, input[..k])
      && (k < n ==> outcome == Cancelled && reports == Progress(k, n))
      && (k == n ==> outcome == Completed(Sort(Results(step, input))) && reports == Progress(n, n) + [(n, n)])
  {
    var discovered := GetInternalDomains(svc);
    if discovered.Err? {
      return DiscoveryFaulted, [], [];
    }
    outcome, reports, lookups := RunBatch(Connect(svc), discovered.value, input, cancelAt);
  }

  /**
   * The loop of `ProcessUsers` once the internal domains are known. Cancellation is
   * observed by the check before record `cancelAt` (and by every later one: a token
   * stays cancelled); a value of at least `|input|` means it is never observed. Each
   * result is appended to the list of its category and progress is reported after each
   * record; a completed run reports `(n, n)` once more at the end.
   */
  method RunBatch(dir: Directory, domains: set<string>, input: seq<UserDto>, cancelAt: nat)
    returns (outcome: Outcome, reports: seq<(int, int)>, lookups: seq<Call>)
    ensures var step, n := Classifier(dir, domains), |input|;
      var k := Handled(n, cancelAt);
      && lookups == Calls(step, input[..k])
      && (k < n ==> outcome == Cancelled && reports == Progress(k, n))
      && (k == n ==> outcome == Completed(Sort(Results(step, input))) && reports == Progress(n, n) + [(n, n)])
    ensures outcome.Completed? ==>
      |outcome.buckets.enabled| + |outcome.buckets.disabled| + |outcome.buckets.notFound| + |outcome.buckets.external| == |input|
  {
    var enabled: seq<UserDto> := [];
    var disabled: seq<UserDto> := [];
    var notFound: seq<UserDto> := [];
    var external: seq<UserDto> := [];
    reports, lookups := [], [];
    ghost var step := Classifier(dir, domains);
    var n := |input|;
    for i := 0 to n
      invariant i <= cancelAt
      invariant lookups == Calls(step, input[..i])
      invariant Buckets(enabled, disabled, notFound, external) == Sort(Results(step, input[..i]))
      invariant reports == Progress(i, n)
    {
      if i == cancelAt {
        return Cancelled, reports, lookups;
      }
      var user, calls := ProcessRecord(dir, domains, input[i]);
      assert step(input[i]) == Step(user, calls);
      SortSnoc(step, input, i);
      BucketsSnoc(Results(step, input[..i]), user);
      lookups := lookups + calls;
      if user.category == EnabledTag {
        enabled := enabled + [user];
      } else if user.category == DisabledTag {
        disabled := disabled + [user];
      } else if user.category == ExternalTag {
        external := external + [user];
      } else {
        notFound := notFound + [user];
      }
      reports := reports + [(i + 1, n)];
    }
    assert input[..n] == input;
    reports := reports + [(n, n)];
    outcome := Completed(Buckets(enabled, disabled, notFound, external));
    BatchPartition(dir, domains, input);
  }

  /** Handling record `i` appends its result and its calls. */
  lemma SortSnoc(step: UserDto -> Step, input: seq<UserDto>, i: nat)
    requires i < |input|
    ensures Results(step, input[..i + 1]) == Results(step, input[..i]) + [step(input[i]).user]
    ensures Calls(step, input[..i + 1]) == Calls(step, input[..i]) + step(input[i]).calls
  {
    assert input[..i + 1][..i] == input[..i];
  }

  /** A new record goes to the end of the list of its category; the others are unchanged. */
  lemma BucketsSnoc(us: seq<UserDto>, u: UserDto)
    requires IsCategory(u.category)
    ensures var b := Sort(us);
      Sort(us + [u]) == (
        if u.category == EnabledTag then b.(enabled := b.enabled + [u])
        else if u.category == DisabledTag then b.(disabled := b.disabled + [u])
        else if u.category == ExternalTag then b.(external := b.external + [u])
        else b.(notFound := b.notFound + [u]))
  {
    WithCategoryAppend(us, [u], EnabledTag);
    WithCategoryAppend(us, [u], DisabledTag);
    WithCategoryAppend(us, [u], NotFoundTag);
    WithCategoryAppend(us, [u], ExternalTag);
  }

  /** Every record lands in exactly one list: the four lists together hold the results,
      each once. */
  lemma BatchPartition(dir: Directory, domains: set<string>, input: seq<UserDto>)
    ensures var b := Sort(Results(Classifier(dir, domains), input));
      && |b.enabled| + |b.disabled| + |b.notFound| + |b.external| == |input|
      && multiset(b.enabled) + multiset(b.disabled) + multiset(b.notFound) + multiset(b.external)
         == multiset(Results(Classifier(dir, domains), input))
  {
    var us := Results(Classifier(dir, domains), input);
    forall i | 0 <= i < |us| ensures IsCategory(us[i].category) {
      assert us[i] == Classify(dir, domains, input[i]).user;
    }
    CategoriesPartition(us);
  }

  /** The lists only grow: a run cancelled before record `k` holds, in each list, a prefix
      of what the completed run holds. */
  lemma BucketsArePrefixes(step: UserDto -> Step, input: seq<UserDto>, k: nat, c: string)
    requires k <= |input|
    ensures var full := WithCategory(Results(step, input), c);
      var part := WithCategory(Results(step, input[..k]), c);
      |part| <= |full| && full[..|part|] == part
  {
    ResultsAppend(step, input[..k], input[k..]);
    assert input[..k] + input[k..] == input;
    WithCategoryAppend(Results(step, input[..k]), Results(step, input[k..]), c);
  }

  /** The results of two runs back to back are those of one run over both inputs. */
  lemma {:induction false} ResultsAppend(step: UserDto -> Step, a: seq<UserDto>, b: seq<UserDto>)
    ensures Results(step, a + b) == Results(step, a) + Results(step, b)
  {
    if b == [] {
      assert a + b == a;
    } else {
      var n := |b|;
      assert (a + b)[..|a + b| - 1] == a + b[..n - 1];
      ResultsAppend(step, a, b[..n - 1]);
    }
  }

  // ---------------------------------------------------------------------------
  // Export tagging

  /** `list.Select(u => { u.Category = c; return u; })`. */
  function Tag(us: seq<UserDto>, c: string): (r: seq<UserDto>)
    ensures |r| == |us|
    ensures forall i | 0 <= i < |us| :: r[i] == us[i].(category := c)
  {
    seq(|us|, i requires 0 <= i < |us| => us[i].(category := c))
  }

  /** The list handed to the export: the four lists tagged with their names and
      concatenated in the order Enabled, Disabled, NotFound, External. */
  function ExportList(b: Buckets): seq<UserDto> {
    Tag(b.enabled, EnabledTag) + Tag(b.disabled, DisabledTag)
      + Tag(b.notFound, NotFoundTag) + Tag(b.external, ExternalTag)
  }

  lemma {:induction false} TagIdentity(us: seq<UserDto>, c: string)
    requires forall i | 0 <= i < |us| :: us[i].category == c
    ensures Tag(us, c) == us
  {
  }

  lemma {:induction false} WithCategoryOfUniform(us: seq<UserDto>, c: string, d: string)
    requires forall i | 0 <= i < |us| :: us[i].category == c
    ensures WithCategory(us, d) == if c == d then us else []
  {
    if us != [] {
      var n := |us|;
      WithCategoryOfUniform(us[..n - 1], c, d);
      assert us[n - 1].category == c;
      if c == d {
        assert us[..n - 1] + [us[n - 1]] == us;
      }
    }
  }

  /** The lists of a run, tagged with their own names, are the lists themselves. */
  lemma ExportListOfSort(us: seq<UserDto>)
    ensures var b := Sort(us);
      ExportList(b) == b.enabled + b.disabled + b.notFound + b.external
  {
    var b := Sort(us);
    TagIdentity(b.enabled, EnabledTag);
    TagIdentity(b.disabled, DisabledTag);
    TagIdentity(b.notFound, NotFoundTag);
    TagIdentity(b.external, ExternalTag);
  }

  /** Filtering four lists of uniform categories by `c` keeps the lists tagged `c`. */
  lemma WithCategoryOfFour(e: seq<UserDto>, d: seq<UserDto>, f: seq<UserDto>, x: seq<UserDto>, c: string)
    requires forall i | 0 <= i < |e| :: e[i].category == EnabledTag
    requires forall i | 0 <= i < |d| :: d[i].category == DisabledTag
    requires forall i | 0 <= i < |f| :: f[i].category == NotFoundTag
    requires forall i | 0 <= i < |x| :: x[i].category == ExternalTag
    ensures WithCategory(e + d + f + x, c)
      == (if c == EnabledTag then e else []) + (if c == DisabledTag then d else [])
       + (if c == NotFoundTag then f else []) + (if c == ExternalTag then x else [])
  {
    WithCategoryAppend(e, d, c);
    WithCategoryAppend(e + d, f, c);
    WithCategoryAppend(e + d + f, x, c);
    WithCategoryOfUniform(e, EnabledTag, c);
    WithCategoryOfUniform(d, DisabledTag, c);
    WithCategoryOfUniform(f, NotFoundTag, c);
    WithCategoryOfUniform(x, ExternalTag, c);
  }

  /** The sheet filter of one category, applied to the tagged and concatenated lists,
      gives back exactly the list of that category: tagging changes nothing for lists a
      run produced. */
  lemma ExportRecoversBucket(us: seq<UserDto>, c: string)
    requires IsCategory(c)
    ensures WithCategory(ExportList(Sort(us)), c) == WithCategory(us, c)
  {
    var b := Sort(us);
    ExportListOfSort(us);
    WithCategoryOfFour(b.enabled, b.disabled, b.notFound, b.external, c);
    assert EnabledTag != DisabledTag && EnabledTag != NotFoundTag && EnabledTag != ExternalTag;
    assert DisabledTag != NotFoundTag && DisabledTag != ExternalTag && NotFoundTag != ExternalTag;
  }
}
