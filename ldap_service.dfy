/**
 * `LdapService` (src/AdUserStatus/Services/LdapService.cs): filter-value escaping,
 * email normalisation, attribute projection, the two user lookups, DN-to-DNS
 * conversion and internal-domain discovery. The bound connection is a value
 * `Service(baseDn, send)`: `send` is what the directory answers to a search request,
 * including the case where `SendRequest` raises.
 */
module LdapService {
  import opened Wrappers
  import opened Text

  /** The attributes of one search result entry: attribute name to its values. */
  type Entry = map<string, seq<string>>

  datatype Scope = Base | OneLevel | Subtree

  /** A `SearchRequest`: base DN, filter, scope and the attributes asked for. */
  datatype Request = Request(baseDn: string, filter: string, scope: Scope, attributes: seq<string>)

  /** The outcome of `SendRequest`: it raised, or it returned these entries in order. */
  datatype Reply = Faulted | Entries(entries: seq<Entry>)

  /** A bound connection together with the default naming context resolved at bind time. */
  datatype Service = Service(baseDn: string, send: Request -> Reply)

  /** A directory query that raised. */
  datatype Fault = QueryFault

  /** The tuple `(found, enabled, displayName, sam, upn)` returned by both lookups. */
  datatype Projection = Projection(
    found: bool, enabled: Option<bool>, displayName: Option<string>, sam: Option<string>, upn: Option<string>)

  /** `(false, null, null, null, null)`. */
  const NotFound := Projection(false, None, None, None, None)

  /** A lookup: what it returned or raised, and the requests it sent, in order. */
  datatype Lookup = Lookup(result: Result<Projection, Fault>, issued: seq<Request>)

  // ---------------------------------------------------------------------------
  // Filter-value escaping (section 3 of RFC 4515)

  /** The characters that section 3 of RFC 4515 requires to be escaped in a value. */
  predicate IsFilterSpecial(c: char) {
    c == '\\' || c == '*' || c == '(' || c == ')' || c == '\0'
  }

  /** The escape of one character: `\` followed by two hex digits for the specials. */
  function EscapeChar(c: char): (r: string)
    ensures IsFilterSpecial(c) ==> |r| == 3 && r[0] == '\\'
    ensures !IsFilterSpecial(c) ==> r == [c]
  {
    if c == '\\' then "\\5c"
    else if c == '*' then "\\2a"
    else if c == '(' then "\\28"
    else if c == ')' then "\\29"
    else if c == '\0' then "\\00"
    else [c]
  }

  /** Reference definition: every character replaced by its escape, left to right. */
  function EscapeEach(s: string): string {
    if s == [] then [] else EscapeChar(s[0]) + EscapeEach(s[1..])
  }

  /** `Esc`: the chain of `Replace` calls, backslash first. */
  function Esc(s: string): string {
    ReplaceChar(ReplaceChar(ReplaceChar(ReplaceChar(ReplaceChar(
      s, '\\', "\\5c"), '*', "\\2a"), '(', "\\28"), ')', "\\29"), '\0', "\\00")
  }

  lemma EscAppend(a: string, b: string)
    ensures Esc(a + b) == Esc(a) + Esc(b)
  {
    var r1a, r1b := ReplaceChar(a, '\\', "\\5c"), ReplaceChar(b, '\\', "\\5c");
    ReplaceCharAppend(a, b, '\\', "\\5c");
    var r2a, r2b := ReplaceChar(r1a, '*', "\\2a"), ReplaceChar(r1b, '*', "\\2a");
    ReplaceCharAppend(r1a, r1b, '*', "\\2a");
    var r3a, r3b := ReplaceChar(r2a, '(', "\\28"), ReplaceChar(r2b, '(', "\\28");
    ReplaceCharAppend(r2a, r2b, '(', "\\28");
    var r4a, r4b := ReplaceChar(r3a, ')', "\\29"), ReplaceChar(r3b, ')', "\\29");
    ReplaceCharAppend(r3a, r3b, ')', "\\29");
    ReplaceCharAppend(r4a, r4b, '\0', "\\00");
  }

  /** Replacing in a one-character string. */
  lemma ReplaceSingle(c: char, d: char, t: string)
    ensures ReplaceChar([c], d, t) == if c == d then t else [c]
  {
    assert [c][1..] == [];
  }

  /** The later replacements leave an escape sequence produced by an earlier one alone. */
  lemma ReplaceLaterAbsent(e: string)
    requires e == "\\5c" || e == "\\2a" || e == "\\28" || e == "\\29" || e == "\\00"
    ensures ReplaceChar(e, '*', "\\2a") == e && ReplaceChar(e, '(', "\\28") == e
    ensures ReplaceChar(e, ')', "\\29") == e && ReplaceChar(e, '\0', "\\00") == e
  {
    assert '*' !in e && '(' !in e && ')' !in e && '\0' !in e;
    ReplaceCharAbsent(e, '*', "\\2a");
    ReplaceCharAbsent(e, '(', "\\28");
    ReplaceCharAbsent(e, ')', "\\29");
    ReplaceCharAbsent(e, '\0', "\\00");
  }

  lemma EscOneChar(c: char)
    ensures Esc([c]) == EscapeChar(c)
  {
    ReplaceSingle(c, '\\', "\\5c");
    var r1 := ReplaceChar([c], '\\', "\\5c");
    if c == '\\' {
      ReplaceLaterAbsent(r1);
    } else {
      ReplaceSingle(c, '*', "\\2a");
      var r2 := ReplaceChar(r1, '*', "\\2a");
      if c == '*' {
        ReplaceLaterAbsent(r2);
      } else {
        ReplaceSingle(c, '(', "\\28");
        var r3 := ReplaceChar(r2, '(', "\\28");
        if c == '(' {
          ReplaceLaterAbsent(r3);
        } else {
          ReplaceSingle(c, ')', "\\29");
          var r4 := ReplaceChar(r3, ')', "\\29");
          if c == ')' {
            ReplaceLaterAbsent(r4);
          } else {
            ReplaceSingle(c, '\0', "\\00");
          }
        }
      }
    }
  }

  /** Because the backslash is replaced first, the chain of replacements escapes each
      input character exactly once: no escape sequence is itself re-escaped. */
  lemma {:induction false} EscIsPerCharacter(s: string)
    ensures Esc(s) == EscapeEach(s)
  {
    if s == [] {
    } else {
      assert s == [s[0]] + s[1..];
      EscAppend([s[0]], s[1..]);
      EscOneChar(s[0]);
      EscIsPerCharacter(s[1..]);
    }
  }

  /** The escaped value contains no raw `*`, `(`, `)` or NUL, and every backslash in it
      starts one of the five escape sequences. */
  lemma {:induction false} EscapedValueIsSafe(s: string)
    ensures '*' !in Esc(s) && '(' !in Esc(s) && ')' !in Esc(s) && '\0' !in Esc(s)
  {
    EscIsPerCharacter(s);
    EscapeEachSafe(s);
  }

  lemma {:induction false} EscapeEachSafe(s: string)
    ensures forall c | c in EscapeEach(s) :: c != '*' && c != '(' && c != ')' && c != '\0'
  {
    if s != [] {
      EscapeEachSafe(s[1..]);
    }
  }

  /** Decoding of the five two-hex-digit escapes produced by `EscapeChar`. */
  function Unhex(h: string): Option<char> {
    if h == "5c" then Some('\\')
    else if h == "2a" then Some('*')
    else if h == "28" then Some('(')
    else if h == "29" then Some(')')
    else if h == "00" then Some('\0')
    else None
  }

  /** The inverse of `EscapeEach`: `\HH` escapes decoded, other characters copied. */
  function Unescape(s: string): string
    decreases |s|
  {
    if s == [] then []
    else if |s| >= 3 && s[0] == '\\' && Unhex(s[1..3]).Some? then [Unhex(s[1..3]).value] + Unescape(s[3..])
    else [s[0]] + Unescape(s[1..])
  }

  /** Escaping loses nothing: decoding the escaped value gives the input back. */
  lemma {:induction false} UnescapeEsc(s: string)
    ensures Unescape(Esc(s)) == s
  {
    EscIsPerCharacter(s);
    UnescapeEscapeEach(s);
  }

  lemma {:induction false} UnescapeEscapeEach(s: string)
    ensures Unescape(EscapeEach(s)) == s
  {
    if s != [] {
      var e := EscapeEach(s);
      var head := EscapeChar(s[0]);
      assert e == head + EscapeEach(s[1..]);
      UnescapeEscapeEach(s[1..]);
      if IsFilterSpecial(s[0]) {
        assert e[1..3] == head[1..3];
        assert e[3..] == EscapeEach(s[1..]);
      } else {
        assert e[0] == s[0];
        assert e[1..] == EscapeEach(s[1..]);
      }
      assert s == [s[0]] + s[1..];
    }
  }

  /** Different values escape differently, so distinct inputs give distinct filters. */
  lemma EscInjective(a: string, b: string)
    requires Esc(a) == Esc(b)
    ensures a == b
  {
    UnescapeEsc(a);
    UnescapeEsc(b);
  }

  /** The example of an injection attempt: `)(uid=*` stays one value. */
  lemma EscInjectionExample(s: string)
    requires s == ")(uid=*"
    ensures Esc(s) == "\\29\\28uid=\\2a"
  {
    EscIsPerCharacter(s);
    EscapeEachExample();
  }

  lemma EscapeEachExample()
    ensures EscapeEach(")(uid=*") == "\\29\\28uid=\\2a"
  {
    EscapeEachTail();
    assert EscapeEach("(uid=*") == "\\28uid=\\2a";
  }

  lemma EscapeEachTail()
    ensures EscapeEach("uid=*") == "uid=\\2a"
  {
    assert EscapeEach("*") == "\\2a";
    assert EscapeEach("=*") == "=\\2a";
    assert EscapeEach("d=*") == "d=\\2a";
    assert EscapeEach("id=*") == "id=\\2a";
  }

  // ---------------------------------------------------------------------------
  // Email normalisation

  /** `NormalizeEmail`: trim, drop every U+00A0 and every space, lower-case. */
  function NormalizeEmail(email: string): (r: string)
    ensures ' ' !in r && '\U{A0}' !in r
  {
    Lower(ReplaceChar(ReplaceChar(Trim(email), '\U{A0}', ""), ' ', ""))
  }

  /** Removing a white-space character keeps both ends of an already trimmed string. */
  lemma RemoveKeepsEdges(s: string, c: char)
    requires IsWhiteSpace(c) && Trimmed(s)
    ensures Trimmed(ReplaceChar(s, c, ""))
  {
    if s != [] {
      var r := ReplaceChar(s, c, "");
      assert r == [s[0]] + ReplaceChar(s[1..], c, "");
      var n := |s|;
      assert s == s[..n - 1] + [s[n - 1]];
      ReplaceCharAppend(s[..n - 1], [s[n - 1]], c, "");
      assert ReplaceChar([s[n - 1]], c, "") == [s[n - 1]];
      assert r[|r| - 1] == s[n - 1];
    }
  }

  /** A normalised email has no white space at either end and no upper-case letter. */
  lemma NormalizedShape(email: string)
    ensures Trimmed(NormalizeEmail(email))
    ensures Lower(NormalizeEmail(email)) == NormalizeEmail(email)
  {
    var t := Trim(email);
    TrimShape(email);
    RemoveKeepsEdges(t, '\U{A0}');
    var u := ReplaceChar(t, '\U{A0}', "");
    RemoveKeepsEdges(u, ' ');
    var v := ReplaceChar(u, ' ', "");
    LowerFacts(v, "");
  }

  /** Normalising an already normalised email changes nothing. */
  lemma NormalizeEmailIdempotent(email: string)
    ensures NormalizeEmail(NormalizeEmail(email)) == NormalizeEmail(email)
  {
    var r := NormalizeEmail(email);
    NormalizedShape(email);
    calc {
      NormalizeEmail(r);
    == { TrimOfTrimmed(r); }
      Lower(ReplaceChar(ReplaceChar(r, '\U{A0}', ""), ' ', ""));
    == { ReplaceCharAbsent(r, '\U{A0}', ""); ReplaceCharAbsent(r, ' ', ""); }
      Lower(r);
    ==
      r;
    }
  }

  // ---------------------------------------------------------------------------
  // Attribute projection

  /** `GetAttr`: the first value of the attribute, or null when it is missing or has no values. */
  function GetAttr(e: Entry, name: string): (r: Option<string>)
    ensures r.Some? <==> name in e && |e[name]| > 0
    ensures r.Some? ==> r.value == e[name][0]
  {
    if name in e && |e[name]| > 0 then Some(e[name][0]) else None
  }

  const MinInt32: int := -0x8000_0000
  const MaxInt32: int := 0x7FFF_FFFF

  /** The white space `NumberStyles.Integer` allows around a number: U+0009..U+000D and space. */
  predicate IsNumberWhite(c: char) {
    c == ' ' || ('\t' <= c <= '\r')
  }

  predicate IsDigit(c: char) {
    '0' <= c <= '9'
  }

  predicate AllDigits(s: string) {
    forall i | 0 <= i < |s| :: IsDigit(s[i])
  }

  /** The value of a run of decimal digits. */
  function DigitsValue(d: string): nat
    requires AllDigits(d)
  {
    if d == [] then 0 else DigitsValue(d[..|d| - 1]) * 10 + (d[|d| - 1] as int - '0' as int)
  }

  function SkipNumberWhite(s: string): (r: string)
    ensures |r| <= |s|
  {
    if s != [] && IsNumberWhite(s[0]) then SkipNumberWhite(s[1..]) else s
  }

  function SkipNumberWhiteEnd(s: string): (r: string)
    ensures |r| <= |s|
  {
    if s != [] && IsNumberWhite(s[|s| - 1]) then SkipNumberWhiteEnd(s[..|s| - 1]) else s
  }

  /** `int.TryParse(s, out v)`: optional surrounding white space, an optional sign and
      at least one decimal digit, with the value inside the 32-bit signed range. */
  function TryParseInt32(s: Option<string>): (r: Option<int>)
    ensures r.Some? ==> MinInt32 <= r.value <= MaxInt32
  {
    if s.None? then None
    else
      var t := SkipNumberWhiteEnd(SkipNumberWhite(s.value));
      var negative := |t| > 0 && t[0] == '-';
      var digits := if |t| > 0 && (t[0] == '-' || t[0] == '+') then t[1..] else t;
      if digits == [] || !AllDigits(digits) then None
      else
        var v: int := if negative then 0 - DigitsValue(digits) else DigitsValue(digits);
        if MinInt32 <= v <= MaxInt32 then Some(v) else None
  }

  /** Decimal text of a natural number, as `ToString()` writes it. */
  function Decimal(n: nat): (d: string)
    ensures d != [] && AllDigits(d) && !IsNumberWhite(d[0]) && !IsNumberWhite(d[|d| - 1])
    ensures d[0] != '-' && d[0] != '+'
  {
    if n < 10 then [(n + '0' as int) as char]
    else Decimal(n / 10) + [(n % 10 + '0' as int) as char]
  }

  lemma {:induction false} DigitsValueDecimal(n: nat)
    ensures DigitsValue(Decimal(n)) == n
  {
    if n >= 10 {
      DigitsValueDecimal(n / 10);
      var d := Decimal(n);
      assert d[..|d| - 1] == Decimal(n / 10);
    }
  }

  /** Parsing the decimal text of a non-negative 32-bit value gives the value back. */
  lemma TryParseDecimal(n: nat)
    requires n <= MaxInt32
    ensures TryParseInt32(Some(Decimal(n))) == Some(n)
  {
    var d := Decimal(n);
    DigitsValueDecimal(n);
    assert SkipNumberWhite(d) == d;
    assert SkipNumberWhiteEnd(d) == d;
  }

  /** `ADS_UF_ACCOUNTDISABLE`, section 2.2.16 of [MS-ADTS]: bit 1 of userAccountControl. */
  const AccountDisable: int := 0x2

  /** `(uac & 0x2) == 0` on a 32-bit `int`. Bit 1 of the two's-complement form of `v` is
      `floor(v / 2) mod 2`, and Dafny's `/` and `%` by a positive divisor are floor
      division and a non-negative remainder, so this also holds for negative values. */
  predicate AccountEnabled(uac: int) {
    (uac / AccountDisable) % 2 == 0
  }

  /** `ProjectUser`: a missing entry is not found; otherwise the entry is found, its
      names are read with `GetAttr`, and `enabled` comes from userAccountControl. */
  function ProjectUser(entry: Option<Entry>): (r: Projection)
    ensures r.found <==> entry.Some?
    ensures entry.None? ==> r == NotFound
    ensures entry.Some? ==>
      (r.displayName == GetAttr(entry.value, "displayName")
       && r.sam == GetAttr(entry.value, "sAMAccountName")
       && r.upn == GetAttr(entry.value, "userPrincipalName"))
    ensures entry.Some? ==>
      var uac := TryParseInt32(GetAttr(entry.value, "userAccountControl"));
      (r.enabled.None? <==> uac.None?) && (uac.Some? ==> r.enabled == Some(AccountEnabled(uac.value)))
  {
    match entry
    case None => NotFound
    case Some(e) =>
      var uac := TryParseInt32(GetAttr(e, "userAccountControl"));
      var enabled := if uac.Some? then Some(AccountEnabled(uac.value)) else None;
      Projection(true, enabled, GetAttr(e, "displayName"), GetAttr(e, "sAMAccountName"), GetAttr(e, "userPrincipalName"))
  }

  /** For an entry whose userAccountControl is written as a non-negative number, the
      account is enabled exactly when the disable bit is clear; a missing or empty
      attribute leaves the state unknown. */
  lemma ProjectAccountControl(e: Entry, uac: nat)
    requires uac <= MaxInt32
    ensures var p := ProjectUser(Some(e["userAccountControl" := [Decimal(uac)]]));
      p.found && p.enabled == Some(AccountEnabled(uac))
    ensures "userAccountControl" !in e ==> ProjectUser(Some(e)).found && ProjectUser(Some(e)).enabled == None
  {
    TryParseDecimal(uac);
  }

  /** 512 is a normal enabled account and 514 the same account disabled. */
  lemma ProjectAccountControlExamples(enabled: Entry, disabled: Entry)
    requires enabled == map["userAccountControl" := ["512"]]
    requires disabled == map["userAccountControl" := ["514"]]
    ensures ProjectUser(Some(enabled)).enabled == Some(true)
    ensures ProjectUser(Some(disabled)).enabled == Some(false)
  {
    DecimalExamples();
    TryParseDecimal(512);
    TryParseDecimal(514);
    assert GetAttr(enabled, "userAccountControl") == Some(Decimal(512));
    assert GetAttr(disabled, "userAccountControl") == Some(Decimal(514));
    assert AccountEnabled(512) && !AccountEnabled(514);
  }

  /** An unparsable userAccountControl gives the unknown state. */
  lemma ProjectGarbledExample(garbled: Entry)
    requires garbled == map["userAccountControl" := ["x"]]
    ensures ProjectUser(Some(garbled)).enabled == None
  {
    assert GetAttr(garbled, "userAccountControl") == Some("x");
    assert SkipNumberWhite("x") == "x";
    assert SkipNumberWhiteEnd("x") == "x";
  }

  lemma DecimalExamples()
    ensures Decimal(512) == "512" && Decimal(514) == "514"
  {
    assert Decimal(5) == "5";
    assert Decimal(51) == "51";
  }
  // ---------------------------------------------------------------------------
  // Case-insensitivity of the email normalisation

  lemma {:induction false} TrimStartLower(s: string)
    ensures TrimStart(Lower(s)) == Lower(TrimStart(s))
  {
    if s != [] {
      assert Lower(s)[1..] == Lower(s[1..]);
      TrimStartLower(s[1..]);
    }
  }

  lemma {:induction false} TrimEndLower(s: string)
    ensures TrimEnd(Lower(s)) == Lower(TrimEnd(s))
  {
    if s != [] {
      assert Lower(s)[..|s| - 1] == Lower(s[..|s| - 1]);
      TrimEndLower(s[..|s| - 1]);
    }
  }

  lemma {:induction false} RemoveLower(s: string, c: char)
    requires !('A' <= c <= 'Z') && !('a' <= c <= 'z')
    ensures ReplaceChar(Lower(s), c, "") == Lower(ReplaceChar(s, c, ""))
  {
    if s != [] {
      assert Lower(s)[1..] == Lower(s[1..]);
      RemoveLower(s[1..], c);
      var rest := ReplaceChar(s[1..], c, "");
      if s[0] != c {
        LowerFacts([s[0]], rest);
      }
    }
  }

  /** Upper and lower case in the input make no difference to the normalised email. */
  lemma NormalizeEmailIgnoresCase(email: string)
    ensures NormalizeEmail(Lower(email)) == NormalizeEmail(email)
  {
    TrimStartLower(email);
    TrimEndLower(TrimStart(email));
    var t := Trim(email);
    RemoveLower(t, '\U{A0}');
    var u := ReplaceChar(t, '\U{A0}', "");
    RemoveLower(u, ' ');
    LowerFacts(ReplaceChar(u, ' ', ""), "");
  }

  /** White space around the input makes no difference to the normalised email. */
  lemma NormalizeEmailIgnoresSurroundingSpace(email: string)
    ensures NormalizeEmail(Trim(email)) == NormalizeEmail(email)
  {
    TrimIdempotent(email);
  }

  // ---------------------------------------------------------------------------
  // Search filters and the two lookups

  /** The attributes both lookups ask for. */
  const UserAttributes: seq<string> := ["displayName", "sAMAccountName", "userPrincipalName", "userAccountControl"]

  /** One equality assertion `(attr=value)`. */
  function Clause(attr: string, value: string): string {
    "(" + attr + "=" + value + ")"
  }

  /** The email filter: person-category user objects whose mail, UPN, or SMTP or smtp
      proxy address equals the value (the interpolated string, spelled out clause by clause). */
  function EmailFilter(v: string): string {
    "(&" + Clause("objectCategory", "person") + Clause("objectClass", "user")
      + "(|" + Clause("mail", v) + Clause("userPrincipalName", v)
      + Clause("proxyAddresses", "SMTP:" + v) + Clause("proxyAddresses", "smtp:" + v) + "))"
  }

  /** The short-name filter: person-category user objects with this sAMAccountName. */
  function SamFilter(v: string): string {
    "(&" + Clause("objectCategory", "person") + Clause("objectClass", "user")
      + Clause("sAMAccountName", v) + ")"
  }

  /** The parentheses of a filter, in order: its nesting structure. */
  function Parens(s: string): string {
    if s == [] then [] else (if s[0] == '(' || s[0] == ')' then [s[0]] else []) + Parens(s[1..])
  }

  lemma {:induction false} ParensAppend(a: string, b: string)
    ensures Parens(a + b) == Parens(a) + Parens(b)
  {
    if a == [] {
      assert a + b == b;
    } else {
      ParensAppend(a[1..], b);
      assert (a + b)[0] == a[0];
      assert (a + b)[1..] == a[1..] + b;
    }
  }

  lemma {:induction false} ParensNone(s: string)
    requires '(' !in s && ')' !in s
    ensures Parens(s) == []
  {
    if s != [] {
      ParensNone(s[1..]);
    }
  }

  /** A value without parentheses leaves a clause's parentheses as they are. */
  lemma {:induction false} ClauseParens(attr: string, v: string)
    requires Parens(v) == []
    ensures Parens(Clause(attr, v)) == Parens(Clause(attr, ""))
  {
    var open := "(" + attr + "=";
    assert Clause(attr, v) == open + v + ")";
    assert Clause(attr, "") == open + ")";
    ParensAppend(open, v);
    ParensAppend(open + v, ")");
    ParensAppend(open, ")");
  }

  lemma {:induction false} ParensPrefixed(p: string, v: string)
    requires Parens(v) == []
    ensures Parens(p + v) == Parens(p)
  {
    ParensAppend(p, v);
  }

  lemma {:induction false} EscParensFree(s: string)
    ensures Parens(Esc(s)) == []
  {
    EscapedValueIsSafe(s);
    ParensNone(Esc(s));
  }

  /** Whatever the email, the filter has the nesting of the intended filter (an AND of
      two clauses and an OR of four): the escaped value can hold no parenthesis. */
  lemma EmailFilterStructure(email: string)
    ensures Parens(EmailFilter(Esc(NormalizeEmail(email)))) == Parens(EmailFilter(""))
  {
    var v := Esc(NormalizeEmail(email));
    EscParensFree(NormalizeEmail(email));
    ParensPrefixed("SMTP:", v);
    ParensPrefixed("smtp:", v);
    assert "SMTP:" + "" == "SMTP:" && "smtp:" + "" == "smtp:";
    ClauseParens("mail", v);
    ClauseParens("userPrincipalName", v);
    ClauseParens("proxyAddresses", "SMTP:" + v);
    ClauseParens("proxyAddresses", "SMTP:");
    ClauseParens("proxyAddresses", "smtp:" + v);
    ClauseParens("proxyAddresses", "smtp:");
    EmailShape(v, "");
  }

  lemma {:induction false} EmailShape(v: string, w: string)
    requires Parens(Clause("mail", v)) == Parens(Clause("mail", w))
    requires Parens(Clause("userPrincipalName", v)) == Parens(Clause("userPrincipalName", w))
    requires Parens(Clause("proxyAddresses", "SMTP:" + v)) == Parens(Clause("proxyAddresses", "SMTP:" + w))
    requires Parens(Clause("proxyAddresses", "smtp:" + v)) == Parens(Clause("proxyAddresses", "smtp:" + w))
    ensures Parens(EmailFilter(v)) == Parens(EmailFilter(w))
  {
    var head := "(&" + Clause("objectCategory", "person") + Clause("objectClass", "user") + "(|";
    ParensOfFour(head, Clause("mail", v), Clause("userPrincipalName", v),
      Clause("proxyAddresses", "SMTP:" + v), Clause("proxyAddresses", "smtp:" + v), "))");
    ParensOfFour(head, Clause("mail", w), Clause("userPrincipalName", w),
      Clause("proxyAddresses", "SMTP:" + w), Clause("proxyAddresses", "smtp:" + w), "))");
  }

  lemma {:induction false} ParensOfFour(h: string, a: string, b: string, c: string, d: string, t: string)
    ensures Parens(h + a + b + c + d + t) == Parens(h) + Parens(a) + Parens(b) + Parens(c) + Parens(d) + Parens(t)
  {
    ParensAppend(h, a);
    ParensAppend(h + a, b);
    ParensAppend(h + a + b, c);
    ParensAppend(h + a + b + c, d);
    ParensAppend(h + a + b + c + d, t);
  }

  /** Whatever the short name, the filter has the nesting of the intended filter. */
  lemma SamFilterStructure(sam: string)
    ensures Parens(SamFilter(Esc(Trim(sam)))) == Parens(SamFilter(""))
  {
    var v := Esc(Trim(sam));
    EscParensFree(Trim(sam));
    ClauseParens("sAMAccountName", v);
    var head := "(&" + Clause("objectCategory", "person") + Clause("objectClass", "user");
    ParensAppend(head, Clause("sAMAccountName", v));
    ParensAppend(head + Clause("sAMAccountName", v), ")");
    ParensAppend(head, Clause("sAMAccountName", ""));
    ParensAppend(head + Clause("sAMAccountName", ""), ")");
  }

  /** The subtree search `FindByEmail` sends. */
  function EmailRequest(baseDn: string, email: string): Request {
    Request(baseDn, EmailFilter(Esc(NormalizeEmail(email))), Subtree, UserAttributes)
  }

  /** The subtree search `FindBySamAccountName` sends. */
  function SamRequest(baseDn: string, sam: string): Request {
    Request(baseDn, SamFilter(Esc(Trim(sam))), Subtree, UserAttributes)
  }

  /** `SendRequest` followed by `FirstOrDefault` and `ProjectUser`. */
  function Search(svc: Service, req: Request): (l: Lookup)
    ensures l.issued == [req]
    ensures l.result.Err? <==> svc.send(req).Faulted?
    ensures l.result.Ok? ==> (l.result.value.found <==> svc.send(req).entries != [])
    ensures l.result.Ok? && l.result.value.found ==> l.result.value == ProjectUser(Some(svc.send(req).entries[0]))
  {
    match svc.send(req)
    case Faulted => Lookup(Err(QueryFault), [req])
    case Entries(es) => Lookup(Ok(ProjectUser(if es == [] then None else Some(es[0]))), [req])
  }

  /** `FindByEmail`: a blank argument is not found and sends nothing; otherwise one
      search with the normalised, escaped email. */
  function FindByEmail(svc: Service, email: string): (l: Lookup)
    ensures IsBlank(email) ==> l == Lookup(Ok(NotFound), [])
    ensures !IsBlank(email) ==> l.issued == [EmailRequest(svc.baseDn, email)]
    ensures !IsBlank(email) ==> l == Search(svc, EmailRequest(svc.baseDn, email))
  {
    if IsBlank(email) then Lookup(Ok(NotFound), []) else Search(svc, EmailRequest(svc.baseDn, email))
  }

  /** `FindBySamAccountName`: a blank argument is not found and sends nothing; otherwise
      one search with the trimmed, escaped name. */
  function FindBySamAccountName(svc: Service, sam: string): (l: Lookup)
    ensures IsBlank(sam) ==> l == Lookup(Ok(NotFound), [])
    ensures !IsBlank(sam) ==> l.issued == [SamRequest(svc.baseDn, sam)]
    ensures !IsBlank(sam) ==> l == Search(svc, SamRequest(svc.baseDn, sam))
  {
    if IsBlank(sam) then Lookup(Ok(NotFound), []) else Search(svc, SamRequest(svc.baseDn, sam))
  }

  // ---------------------------------------------------------------------------
  // DN to DNS name

  /** The non-empty strings of `parts`, in order. */
  function NonEmpty(parts: seq<string>): (r: seq<string>)
    ensures |r| <= |parts|
    ensures forall i | 0 <= i < |r| :: r[i] != [] && r[i] in parts
  {
    if parts == [] then []
    else (if parts[0] == [] then [] else [parts[0]]) + NonEmpty(parts[1..])
  }

  /** `s.Split(c, StringSplitOptions.RemoveEmptyEntries)`. */
  function SplitNonEmpty(s: string, c: char): (r: seq<string>)
    ensures forall i | 0 <= i < |r| :: r[i] != [] && c !in r[i]
  {
    NonEmpty(Split(s, c))
  }

  /** `rdn.Split('=', 2, StringSplitOptions.RemoveEmptyEntries)`: the first non-empty run
      before an `=`, then everything after the `=`s that follow it, if non-empty. */
  function SplitKeyValue(rdn: string): seq<string> {
    KeyValue(DropLeading(rdn, '='))
  }

  /** The pieces of an RDN whose leading `=`s are already dropped. */
  function KeyValue(t: string): seq<string> {
    if t == [] then []
    else match IndexOfChar(t, '=')
      case None => [t]
      case Some(k) =>
        var rest := DropLeading(t[k + 1..], '=');
        if rest == [] then [t[..k]] else [t[..k], rest]
  }

  /** At most two pieces come out, none of them empty, and the first holds no `=`. */
  lemma SplitKeyValueShape(rdn: string)
    ensures |SplitKeyValue(rdn)| <= 2
    ensures |SplitKeyValue(rdn)| >= 1 ==> SplitKeyValue(rdn)[0] != [] && '=' !in SplitKeyValue(rdn)[0]
    ensures |SplitKeyValue(rdn)| == 2 ==> SplitKeyValue(rdn)[1] != []
  {
    KeyValueShape(DropLeading(rdn, '='));
  }

  /** The shape of the pieces, once no `=` leads. */
  lemma KeyValueShape(t: string)
    requires t == [] || t[0] != '='
    ensures |KeyValue(t)| <= 2
    ensures |KeyValue(t)| >= 1 ==> KeyValue(t)[0] != [] && '=' !in KeyValue(t)[0]
    ensures |KeyValue(t)| == 2 ==> KeyValue(t)[1] != []
  {
    if t != [] {
      match IndexOfChar(t, '=')
      case None =>
      case Some(k) =>
        assert k > 0 by {
          assert t[k] == '=';
        }
    }
  }

  /** The label one RDN contributes: the trimmed value of a `DC=` component, key
      compared ignoring case; any other RDN contributes nothing. */
  function DcLabel(rdn: string): Option<string> {
    var kv := SplitKeyValue(rdn);
    if |kv| == 2 && EqualsIgnoreCase(Trim(kv[0]), "DC") then Some(Trim(kv[1])) else None
  }

  /** The labels `pick` finds in the RDNs, in order. */
  function Labels(pick: string -> Option<string>, rdns: seq<string>): (r: seq<string>)
    ensures |r| <= |rdns|
  {
    if rdns == [] then []
    else
      var last := pick(rdns[|rdns| - 1]);
      Labels(pick, rdns[..|rdns| - 1]) + (if last.Some? then [last.value] else [])
  }

  lemma LabelsSnoc(pick: string -> Option<string>, rdns: seq<string>, i: nat)
    requires i < |rdns|
    ensures Labels(pick, rdns[..i + 1])
      == Labels(pick, rdns[..i]) + (if pick(rdns[i]).Some? then [pick(rdns[i]).value] else [])
  {
    assert rdns[..i + 1][..i] == rdns[..i];
  }

  /** The labels of the `DC=` components, in order. */
  function DcLabels(rdns: seq<string>): (r: seq<string>)
    ensures |r| <= |rdns|
  {
    Labels(DcLabel, rdns)
  }


  /** The DNS name `DnToDns` computes. */
  function DnsName(dn: string): string {
    Join('.', DcLabels(SplitNonEmpty(dn, ',')))
  }

  /** `DnToDns`: collects the `DC=` labels of the comma-separated RDNs and joins them with dots. */
  method DnToDns(dn: string) returns (dns: string)
    ensures dns == DnsName(dn)
  {
    var rdns := SplitNonEmpty(dn, ',');
    var labels: seq<string> := [];
    for i := 0 to |rdns|
      invariant labels == Labels(DcLabel, rdns[..i])
    {
      LabelsSnoc(DcLabel, rdns, i);
      var kv := SplitKeyValue(rdns[i]);
      if |kv| == 2 && EqualsIgnoreCase(Trim(kv[0]), "DC") {
        labels := labels + [Trim(kv[1])];
      }
    }
    assert rdns[..|rdns|] == rdns;
    dns := Join('.', labels);
  }

  lemma {:induction false} NonEmptyId(parts: seq<string>)
    requires forall i | 0 <= i < |parts| :: parts[i] != []
    ensures NonEmpty(parts) == parts
  {
    if parts != [] {
      NonEmptyId(parts[1..]);
    }
  }

  /** Joining non-empty, comma-free RDNs with commas and converting gives the labels of
      those RDNs. */
  lemma DnsNameOfRdns(rdns: seq<string>)
    requires forall i | 0 <= i < |rdns| :: rdns[i] != [] && ',' !in rdns[i]
    ensures DnsName(Join(',', rdns)) == Join('.', DcLabels(rdns))
  {
    if rdns == [] {
      assert Split("", ',') == [""];
    } else {
      SplitJoin(rdns, ',');
      NonEmptyId(rdns);
    }
  }

  /** An RDN `key=value` splits into its key and value when the key holds no `=` and the
      value does not start with one. */
  lemma SplitKeyValueOf(key: string, value: string)
    requires key != [] && '=' !in key && value != [] && value[0] != '='
    ensures SplitKeyValue(key + "=" + value) == [key, value]
  {
    var rdn := key + "=" + value;
    assert rdn[0] == key[0];
    assert DropLeading(rdn, '=') == rdn;
    var k := IndexOfChar(rdn, '=').value;
    assert rdn[|key|] == '=';
    assert rdn[..k] == key;
    assert rdn[k + 1..] == value;
    assert DropLeading(value, '=') == value;
  }

  /** A `DC=label` component gives back its label when the label is trimmed, non-empty
      and does not start with `=`. */
  lemma DcLabelOfDc(name: string)
    requires name != [] && name[0] != '=' && Trimmed(name)
    ensures DcLabel("DC=" + name) == Some(name)
  {
    var rdn := "DC=" + name;
    assert rdn == "DC" + "=" + name;
    assert '=' !in "DC" && Trim("DC") == "DC" && EqualsIgnoreCase("DC", "DC");
    SplitKeyValueOf("DC", name);
    TrimOfTrimmed(name);
  }


  /** Building a DN out of `DC=` components and converting it back gives the labels
      joined with dots. */
  lemma {:induction false} DnsNameOfDcComponents(labels: seq<string>)
    requires forall i | 0 <= i < |labels| :: labels[i] != [] && labels[i][0] != '=' && Trimmed(labels[i]) && ',' !in labels[i]
    ensures DnsName(Join(',', DcComponents(labels))) == Join('.', labels)
  {
    var rdns := DcComponents(labels);
    forall i | 0 <= i < |rdns| ensures rdns[i] != [] && ',' !in rdns[i] {
      assert rdns[i] == "DC=" + labels[i];
    }
    DnsNameOfRdns(rdns);
    DcLabelsOfDcComponents(labels);
  }

  /** `DC=` components for each label. */
  function DcComponents(labels: seq<string>): (r: seq<string>)
    ensures |r| == |labels| && forall i | 0 <= i < |labels| :: r[i] == "DC=" + labels[i]
  {
    seq(|labels|, i requires 0 <= i < |labels| => "DC=" + labels[i])
  }

  lemma {:induction false} DcLabelsOfDcComponents(labels: seq<string>)
    requires forall i | 0 <= i < |labels| :: labels[i] != [] && labels[i][0] != '=' && Trimmed(labels[i])
    ensures DcLabels(DcComponents(labels)) == labels
  {
    var comps := DcComponents(labels);
    forall i | 0 <= i < |comps| ensures DcLabel(comps[i]) == Some(labels[i]) {
      DcLabelOfDc(labels[i]);
    }
    LabelsAllSome(DcLabel, comps, labels);
  }

  lemma {:induction false} LabelsAllSome(pick: string -> Option<string>, rdns: seq<string>, labels: seq<string>)
    requires |rdns| == |labels| && forall i | 0 <= i < |rdns| :: pick(rdns[i]) == Some(labels[i])
    ensures Labels(pick, rdns) == labels
  {
    if rdns != [] {
      var n := |rdns|;
      LabelsAllSome(pick, rdns[..n - 1], labels[..n - 1]);
      assert labels == labels[..n - 1] + [labels[n - 1]];
    }
  }

  lemma {:induction false} LabelsAppend(pick: string -> Option<string>, a: seq<string>, b: seq<string>)
    ensures Labels(pick, a + b) == Labels(pick, a) + Labels(pick, b)
  {
    if b == [] {
      assert a + b == a;
    } else {
      var n := |b|;
      assert (a + b)[..|a + b| - 1] == a + b[..n - 1];
      LabelsAppend(pick, a, b[..n - 1]);
    }
  }

  lemma {:induction false} LabelsNone(pick: string -> Option<string>, rdns: seq<string>)
    requires forall i | 0 <= i < |rdns| :: pick(rdns[i]).None?
    ensures Labels(pick, rdns) == []
  {
    if rdns != [] {
      LabelsNone(pick, rdns[..|rdns| - 1]);
    }
  }

  /** Components that are not `DC=` components, before the `DC=` ones, are ignored:
      `OU=Staff,DC=corp,DC=example` names `corp.example`. */
  lemma DnsNameIgnoresOtherComponents(others: seq<string>, labels: seq<string>)
    requires forall i | 0 <= i < |others| :: others[i] != [] && ',' !in others[i] && DcLabel(others[i]).None?
    requires forall i | 0 <= i < |labels| :: labels[i] != [] && labels[i][0] != '=' && Trimmed(labels[i]) && ',' !in labels[i]
    ensures DnsName(Join(',', others + DcComponents(labels))) == Join('.', labels)
  {
    var comps := DcComponents(labels);
    CommaFreeComponents(others, labels);
    DnsNameOfRdns(others + comps);
    DcLabelsOfDcComponents(labels);
    SkipUnpicked(DcLabel, others, comps);
  }

  lemma SkipUnpicked(pick: string -> Option<string>, others: seq<string>, rest: seq<string>)
    requires forall i | 0 <= i < |others| :: pick(others[i]).None?
    ensures Labels(pick, others + rest) == Labels(pick, rest)
  {
    LabelsAppend(pick, others, rest);
    LabelsNone(pick, others);
  }

  lemma CommaFreeComponents(others: seq<string>, labels: seq<string>)
    requires forall i | 0 <= i < |others| :: others[i] != [] && ',' !in others[i]
    requires forall i | 0 <= i < |labels| :: ',' !in labels[i]
    ensures forall i | 0 <= i < |others + DcComponents(labels)| ::
      (others + DcComponents(labels))[i] != [] && ',' !in (others + DcComponents(labels))[i]
  {
    var rdns := others + DcComponents(labels);
    forall i | 0 <= i < |rdns| ensures rdns[i] != [] && ',' !in rdns[i] {
      if i >= |others| {
        assert rdns[i] == "DC=" + labels[i - |others|];
      }
    }
  }

  /** A `key=value` component whose trimmed key is not `DC` (ignoring case), such as
      `OU=Staff`, contributes no label. */
  lemma OtherKeyIsNotDc(key: string, value: string)
    requires key != [] && '=' !in key && value != [] && value[0] != '='
    requires !EqualsIgnoreCase(Trim(key), "DC")
    ensures DcLabel(key + "=" + value).None?
  {
    SplitKeyValueOf(key, value);
  }

  // ---------------------------------------------------------------------------
  // Internal-domain discovery

  /** The RootDSE search for the configuration naming context. */
  const RootRequest: Request := Request("", "(objectClass=*)", Base, ["configurationNamingContext"])

  function PartitionsDn(configNc: string): string {
    "CN=Partitions," + configNc
  }

  /** The one-level search for crossRef entries below the partitions container. */
  function CrossRefRequest(partitions: string): Request {
    Request(partitions, "(objectClass=crossRef)", OneLevel, ["dnsRoot", "nCName"])
  }

  /** The base search of the partitions container for the forest's UPN suffixes. */
  function UpnSuffixRequest(partitions: string): Request {
    Request(partitions, "(objectClass=*)", Base, ["uPNSuffixes"])
  }

  /** `Attributes[name]?[0]`: null when the attribute is absent; indexing an attribute
      that is present with no values raises. */
  function FirstValue(e: Entry, name: string): (r: Result<Option<string>, Fault>)
    ensures r.Err? <==> name in e && e[name] == []
    ensures r.Ok? ==> r.value == GetAttr(e, name)
  {
    if name !in e then Ok(None)
    else if e[name] == [] then Err(QueryFault)
    else Ok(Some(e[name][0]))
  }

  /** A crossRef entry for a domain naming context: its nCName is non-blank and starts
      with `DC=` (ignoring case) and its dnsRoot is non-blank. */
  predicate IsDomainCrossRef(e: Entry) {
    var nc := GetAttr(e, "nCName");
    var root := GetAttr(e, "dnsRoot");
    nc.Some? && !IsBlank(nc.value) && StartsWithIgnoreCase(nc.value, "DC=")
    && root.Some? && !IsBlank(root.value)
  }

  /** The lower-cased dnsRoot of every domain crossRef entry. */
  function CrossRefDomains(es: seq<Entry>): set<string> {
    if es == [] then {}
    else
      var e := es[|es| - 1];
      CrossRefDomains(es[..|es| - 1]) + (if IsDomainCrossRef(e) then {Lower(GetAttr(e, "dnsRoot").value)} else {})
  }

  /** The lower-cased values. */
  function LowerAll(vs: seq<string>): set<string> {
    if vs == [] then {} else LowerAll(vs[..|vs| - 1]) + {Lower(vs[|vs| - 1])}
  }

  lemma CrossRefDomainsSnoc(es: seq<Entry>, i: nat)
    requires i < |es|
    ensures CrossRefDomains(es[..i + 1]) == CrossRefDomains(es[..i])
      + (if IsDomainCrossRef(es[i]) then {Lower(GetAttr(es[i], "dnsRoot").value)} else {})
  {
    assert es[..i + 1][..i] == es[..i];
  }

  lemma LowerAllSnoc(vs: seq<string>, j: nat)
    requires j < |vs|
    ensures LowerAll(vs[..j + 1]) == LowerAll(vs[..j]) + {Lower(vs[j])}
  {
    assert vs[..j + 1][..j] == vs[..j];
  }

  /** The uPNSuffixes values of the first entry, none when there is no entry or no attribute. */
  function UpnSuffixValues(es: seq<Entry>): seq<string> {
    if es != [] && "uPNSuffixes" in es[0] then es[0]["uPNSuffixes"] else []
  }

  /** The current domain, derived from the search base, when it is not blank. */
  function CurrentDomain(baseDn: string): set<string> {
    var d := DnsName(baseDn);
    if IsBlank(d) then {} else {Lower(d)}
  }

  /**
   * The domains discovered through the directory: once the configuration naming
   * context is known, the domain crossRef dnsRoots and the forest UPN suffixes. A
   * RootDSE reply with no entry, or no usable configuration naming context, discovers
   * nothing. A query that raises makes the discovery raise.
   */
  function ForestDomains(svc: Service): Result<set<string>, Fault> {
    match svc.send(RootRequest)
    case Faulted => Err(QueryFault)
    case Entries(rootEs) =>
      if rootEs == [] then Ok({})
      else match FirstValue(rootEs[0], "configurationNamingContext")
        case Err(f) => Err(f)
        case Ok(nc) =>
          if nc.None? || IsBlank(nc.value) then Ok({})
          else PartitionDomains(svc, PartitionsDn(nc.value))
  }

  /** The domains found below the partitions container: the domain crossRef dnsRoots,
      then the UPN suffixes. */
  function PartitionDomains(svc: Service, partitions: string): Result<set<string>, Fault> {
    match svc.send(CrossRefRequest(partitions))
    case Faulted => Err(QueryFault)
    case Entries(crossEs) =>
      match svc.send(UpnSuffixRequest(partitions))
      case Faulted => Err(QueryFault)
      case Entries(upnEs) => Ok(CrossRefDomains(crossEs) + LowerAll(UpnSuffixValues(upnEs)))
  }

  /** The internal domains `GetInternalDomains` returns, as the case-folded keys of its
      case-insensitive set: the current domain and the discovered ones. */
  function InternalDomains(svc: Service): Result<set<string>, Fault> {
    match ForestDomains(svc)
    case Err(f) => Err(f)
    case Ok(found) => Ok(CurrentDomain(svc.baseDn) + found)
  }

  /** The first loop of `GetInternalDomains`: adds the dnsRoot of every domain crossRef
      entry. */
  method AddCrossRefDomains(domains: set<string>, es: seq<Entry>) returns (r: set<string>)
    ensures r == domains + CrossRefDomains(es)
  {
    r := domains;
    for i := 0 to |es|
      invariant r == domains + CrossRefDomains(es[..i])
    {
      CrossRefDomainsSnoc(es, i);
      var e := es[i];
      var nCName := GetAttr(e, "nCName");
      var dnsRoot := GetAttr(e, "dnsRoot");
      if nCName.Some? && !IsBlank(nCName.value) && StartsWithIgnoreCase(nCName.value, "DC=")
         && dnsRoot.Some? && !IsBlank(dnsRoot.value) {
        r := r + {Lower(dnsRoot.value)};
      }
    }
    assert es[..|es|] == es;
  }

  /** The second loop of `GetInternalDomains`: adds every UPN suffix. */
  method AddUpnSuffixes(domains: set<string>, suffixes: seq<string>) returns (r: set<string>)
    ensures r == domains + LowerAll(suffixes)
  {
    r := domains;
    for j := 0 to |suffixes|
      invariant r == domains + LowerAll(suffixes[..j])
    {
      LowerAllSnoc(suffixes, j);
      r := r + {Lower(suffixes[j])};
    }
    assert suffixes[..|suffixes|] == suffixes;
  }

  /** `GetInternalDomains`: adds to a set in two loops, over the crossRef entries and
      over the UPN suffixes. */
  method GetInternalDomains(svc: Service) returns (r: Result<set<string>, Fault>)
    ensures r == InternalDomains(svc)
  {
    var domains: set<string> := {};
    var current := DnToDns(svc.baseDn);
    if !IsBlank(current) {
      domains := domains + {Lower(current)};
    }
    ghost var start := domains;
    assert start == CurrentDomain(svc.baseDn);
    var rootReply := svc.send(RootRequest);
    if rootReply.Faulted? {
      return Err(QueryFault);
    }
    if rootReply.entries == [] {
      assert domains == start + {};
      return Ok(domains);
    }
    var nc := FirstValue(rootReply.entries[0], "configurationNamingContext");
    if nc.Err? {
      return Err(nc.error);
    }
    if nc.value.None? || IsBlank(nc.value.value) {
      assert domains == start + {};
      return Ok(domains);
    }
    var partitions := PartitionsDn(nc.value.value);
    var crossReply := svc.send(CrossRefRequest(partitions));
    assert ForestDomains(svc) == PartitionDomains(svc, partitions);
    if crossReply.Faulted? {
      return Err(QueryFault);
    }
    var crossEs := crossReply.entries;
    domains := AddCrossRefDomains(domains, crossEs);
    var upnReply := svc.send(UpnSuffixRequest(partitions));
    if upnReply.Faulted? {
      return Err(QueryFault);
    }
    var suffixes := UpnSuffixValues(upnReply.entries);
    domains := AddUpnSuffixes(domains, suffixes);
    assert domains == start + (CrossRefDomains(crossEs) + LowerAll(suffixes));
    assert PartitionDomains(svc, partitions) == Ok(CrossRefDomains(crossEs) + LowerAll(suffixes));
    return Ok(domains);
  }

  /** Which crossRef entries contribute: exactly the domain crossRefs, by their dnsRoot. */
  lemma {:induction false} CrossRefDomainsMembers(es: seq<Entry>, d: string)
    ensures d in CrossRefDomains(es) <==>
      exists i :: 0 <= i < |es| && IsDomainCrossRef(es[i]) && d == Lower(GetAttr(es[i], "dnsRoot").value)
  {
    if es != [] {
      var n := |es|;
      var init := es[..n - 1];
      CrossRefDomainsMembers(init, d);
      assert forall i | 0 <= i < n - 1 :: init[i] == es[i];
    }
  }

  /** Every UPN suffix contributes its lower-cased value, and nothing else does. */
  lemma {:induction false} LowerAllMembers(vs: seq<string>, d: string)
    ensures d in LowerAll(vs) <==> exists i :: 0 <= i < |vs| && d == Lower(vs[i])
  {
    if vs != [] {
      var n := |vs|;
      LowerAllMembers(vs[..n - 1], d);
      if d in LowerAll(vs[..n - 1]) {
        var i :| 0 <= i < n - 1 && d == Lower(vs[..n - 1][i]);
        assert vs[i] == vs[..n - 1][i];
      }
      if exists i :: 0 <= i < n && d == Lower(vs[i]) {
        var i :| 0 <= i < n && d == Lower(vs[i]);
        if i < n - 1 {
          assert vs[..n - 1][i] == vs[i];
        }
      }
    }
  }

  /** Every discovered domain is stored lower-cased. */
  lemma InternalDomainsAreLowerCase(svc: Service)
    requires InternalDomains(svc).Ok?
    ensures forall d | d in InternalDomains(svc).value :: Lower(d) == d
  {
    forall d | d in InternalDomains(svc).value ensures Lower(d) == d {
      var rootReply := svc.send(RootRequest);
      if d !in CurrentDomain(svc.baseDn) {
        var nc := FirstValue(rootReply.entries[0], "configurationNamingContext").value.value;
        var partitions := PartitionsDn(nc);
        var crossEs := svc.send(CrossRefRequest(partitions)).entries;
        var upnEs := svc.send(UpnSuffixRequest(partitions)).entries;
        if d in CrossRefDomains(crossEs) {
          CrossRefDomainsMembers(crossEs, d);
          var i :| 0 <= i < |crossEs| && IsDomainCrossRef(crossEs[i]) && d == Lower(GetAttr(crossEs[i], "dnsRoot").value);
          LowerFacts(GetAttr(crossEs[i], "dnsRoot").value, "");
        } else {
          LowerAllMembers(UpnSuffixValues(upnEs), d);
          var i :| 0 <= i < |UpnSuffixValues(upnEs)| && d == Lower(UpnSuffixValues(upnEs)[i]);
          LowerFacts(UpnSuffixValues(upnEs)[i], "");
        }
      } else {
        LowerFacts(DnsName(svc.baseDn), "");
      }
    }
  }

  /** When the RootDSE query returns no entry, or no usable configuration naming
      context, the result is the current domain alone. */
  lemma DiscoveryFallsBackToCurrentDomain(svc: Service)
    requires svc.send(RootRequest).Entries?
    requires var es := svc.send(RootRequest).entries;
      es == [] || "configurationNamingContext" !in es[0]
      || (GetAttr(es[0], "configurationNamingContext").Some? && IsBlank(GetAttr(es[0], "configurationNamingContext").value))
    ensures InternalDomains(svc) == Ok(CurrentDomain(svc.baseDn))
  {
    var es := svc.send(RootRequest).entries;
    if es != [] {
      var nc := FirstValue(es[0], "configurationNamingContext");
      assert nc.Ok? && (nc.value.None? || IsBlank(nc.value.value));
    }
    assert ForestDomains(svc) == Ok({});
    assert CurrentDomain(svc.baseDn) + {} == CurrentDomain(svc.baseDn);
  }

}
