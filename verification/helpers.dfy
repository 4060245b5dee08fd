/** The pure helpers of utils/helpers.py: the e-mail and phone validators,
    `sanitize_input`, the count-based statistics and the severity colours.
    Regular expressions are written out as predicates over the string, and
    each validator is proved equal to the pattern it stands for. */
module Helpers {
  import opened Wrappers
  import opened Seqs
  import opened Text
  import opened PyValues
  import DrugReports

  // ---------------------------------------------------------------------------
  // validate_email: ^[a-zA-Z0-9._%+-]+@[a-zA-Z0-9.-]+\.[a-zA-Z]{2,}$
  // ---------------------------------------------------------------------------

  /** `[a-zA-Z0-9._%+-]`, the characters of the part before `@`. */
  predicate LocalChar(c: char)
  {
    IsAsciiLetter(c) || IsAsciiDigit(c) || c == '.' || c == '_' || c == '%' || c == '+' || c == '-'
  }

  /** `[a-zA-Z0-9.-]`, the characters of the domain before its last dot. */
  predicate DomainChar(c: char)
  {
    IsAsciiLetter(c) || IsAsciiDigit(c) || c == '.' || c == '-'
  }

  predicate AllLocal(s: string) { forall k :: 0 <= k < |s| ==> LocalChar(s[k]) }
  predicate AllDomain(s: string) { forall k :: 0 <= k < |s| ==> DomainChar(s[k]) }
  predicate AllLetters(s: string) { forall k :: 0 <= k < |s| ==> IsAsciiLetter(s[k]) }
  predicate AllDigits(s: string) { forall k :: 0 <= k < |s| ==> IsAsciiDigit(s[k]) }

  /** The pattern matches `s` whole with its `@` at `i` and the dot before the
      top-level domain at `j`. */
  predicate EmailAt(s: string, i: int, j: int)
  {
    && 0 < i && i + 1 < j && j + 2 < |s|
    && s[i] == '@' && s[j] == '.'
    && AllLocal(s[..i]) && AllDomain(s[i + 1..j]) && AllLetters(s[j + 1..])
  }

  /** The set of strings the pattern describes, anchored at both ends. */
  ghost predicate EmailShape(s: string)
  {
    exists i, j :: EmailAt(s, i, j)
  }

  /** A decision procedure for the pattern: `@` cannot occur in the local
      part and `.` cannot occur in the top-level domain, so the only
      candidates are the first `@` and the last `.`. */
  function ValidateEmailStrict(s: string): (ok: bool)
    ensures ok <==> EmailShape(s)
  {
    match IndexOf(s, '@')
    case None =>
      assert !EmailShape(s) by { NoEmailWithout(s); }
      false
    case Some(i) =>
      match LastIndexOf(s, '.')
      case None =>
        assert !EmailShape(s) by { NoEmailWithout(s); }
        false
      case Some(j) =>
        assert EmailShape(s) ==> EmailAt(s, i, j) by {
          if EmailShape(s) {
            EmailPositions(s);
          }
        }
        EmailAt(s, i, j)
  }

  lemma NoEmailWithout(s: string)
    requires '@' !in s || '.' !in s
    ensures !EmailShape(s)
  {
  }

  /** Any match uses the first `@` and the last `.` of the string. */
  lemma EmailPositions(s: string)
    requires EmailShape(s)
    ensures IndexOf(s, '@').Some? && LastIndexOf(s, '.').Some?
    ensures EmailAt(s, IndexOf(s, '@').value, LastIndexOf(s, '.').value)
  {
    var i, j :| EmailAt(s, i, j);
    forall k | 0 <= k < i
      ensures s[k] != '@'
    {
      assert s[..i][k] == s[k];
    }
    IndexOfUnique(s, '@', i);
    forall k | j < k < |s|
      ensures s[k] != '.'
    {
      assert s[j + 1..][k - j - 1] == s[k];
    }
    assert LastIndexOf(s, '.').value == j;
  }

  /** `validate_email` as written: `re.match` with `$`, which also matches
      just before a newline that ends the string. */
  function ValidateEmail(s: string): (ok: bool)
    ensures ok <==> EmailShape(s) || (|s| > 0 && s[|s| - 1] == '\n' && EmailShape(s[..|s| - 1]))
  {
    ValidateEmailStrict(s) || (|s| > 0 && s[|s| - 1] == '\n' && ValidateEmailStrict(s[..|s| - 1]))
  }

  /** An address followed by a newline passes the check as written although
      no string with a newline has the shape the pattern describes. */
  lemma EmailTrailingNewline()
    ensures ValidateEmail("a@b.co\n")
    ensures !EmailShape("a@b.co\n") && !ValidateEmailStrict("a@b.co\n")
  {
    var s := "a@b.co\n";
    var t := "a@b.co";
    assert s[..6] == t;
    assert EmailAt(t, 1, 3) by {
      assert t[..1] == ['a'];
      assert t[2..3] == ['b'];
      assert t[4..] == ['c', 'o'];
    }
    assert LastIndexOf(s, '.') == Some(3) by {
      assert s[3] == '.';
      assert forall k :: 3 < k < |s| ==> s[k] != '.';
    }
    assert !IsAsciiLetter(s[6]);
    assert s[4..][2] == s[6];
  }

  /** On strings without a newline the two checks agree. */
  lemma EmailNewlineOnly(s: string)
    requires '\n' !in s
    ensures ValidateEmail(s) == ValidateEmailStrict(s)
  {
  }

  // ---------------------------------------------------------------------------
  // validate_phone: strip [\s\-\(\)\.], then ^\+?1?\d{10,}$
  // ---------------------------------------------------------------------------

  /** The separators `re.sub(r'[\s\-\(\)\.]+', '', phone)` removes. */
  predicate Separator(c: char)
  {
    IsSpace(c) || c == '-' || c == '(' || c == ')' || c == '.'
  }

  function IsNotSeparator(): char -> bool
  {
    (c: char) => !Separator(c)
  }

  /** The phone number with every separator removed, the rest in order. */
  function CleanPhone(s: string): (c: string)
    ensures forall k :: 0 <= k < |c| ==> !Separator(c[k])
    ensures forall k :: 0 <= k < |s| && !Separator(s[k]) ==> s[k] in c
    ensures IsSubsequence(c, s)
    ensures forall x :: !Separator(x) ==> multiset(c)[x] == multiset(s)[x]
  {
    FilterIsSubsequence(IsNotSeparator(), s);
    FilterMultiset(IsNotSeparator(), s);
    Filter(IsNotSeparator(), s)
  }

  /** The pattern matches `c` whole, taking a `+` when `plus == 1` and a `1`
      when `one == 1`, followed by at least ten digits. */
  predicate PhoneAt(c: string, plus: nat, one: nat)
  {
    && plus <= 1 && one <= 1 && plus + one + 10 <= |c|
    && (plus == 1 ==> c[0] == '+')
    && (one == 1 ==> c[plus] == '1')
    && AllDigits(c[plus + one..])
  }

  ghost predicate PhoneShape(c: string)
  {
    exists plus: nat, one: nat :: PhoneAt(c, plus, one)
  }

  /** `validate_phone`: after cleaning, an optional `+` and then ten or more
      digits (the optional `1` of the pattern is itself a digit). */
  function ValidatePhone(s: string): (ok: bool)
  {
    var c := CleanPhone(s);
    var digits := if |c| > 0 && c[0] == '+' then c[1..] else c;
    |digits| >= 10 && AllDigits(digits)
  }

  /** The check accepts exactly the numbers whose cleaned form the pattern
      `^\+?1?\d{10,}$` matches. */
  lemma PhoneMatchesPattern(s: string)
    ensures ValidatePhone(s) <==> PhoneShape(CleanPhone(s))
  {
    var c := CleanPhone(s);
    if ValidatePhone(s) {
      PhoneAccepted(c);
    }
    if PhoneShape(c) {
      var plus: nat, one: nat :| PhoneAt(c, plus, one);
      PhoneMatched(c, plus, one);
    }
  }

  lemma PhoneAccepted(c: string)
    requires var digits := if |c| > 0 && c[0] == '+' then c[1..] else c;
      |digits| >= 10 && AllDigits(digits)
    ensures PhoneShape(c)
  {
    var plus := if |c| > 0 && c[0] == '+' then 1 else 0;
    assert c[plus + 0..] == (if |c| > 0 && c[0] == '+' then c[1..] else c);
    assert PhoneAt(c, plus, 0);
  }

  /** Any way the pattern matches leaves digits after the optional `+`. */
  lemma PhoneMatched(c: string, plus: nat, one: nat)
    requires PhoneAt(c, plus, one)
    ensures var digits := if |c| > 0 && c[0] == '+' then c[1..] else c;
      |digits| >= 10 && AllDigits(digits)
  {
    var rest := c[plus + one..];
    // Every character after the `+` is a digit: either the optional `1` or
    // one of the digits of `rest`.
    forall k | plus <= k < |c|
      ensures IsAsciiDigit(c[k])
    {
      if one == 1 && k == plus {
        assert c[k] == '1';
      } else {
        assert c[k] == rest[k - plus - one];
      }
    }
    if plus == 0 {
      assert c[0] != '+' by {
        assert IsAsciiDigit(c[0]);
      }
    }
    var digits := c[plus..];
    assert forall k :: 0 <= k < |digits| ==> digits[k] == c[k + plus];
  }

  /** The separators never matter: adding one anywhere leaves the answer as
      it was. */
  lemma PhoneIgnoresSeparator(a: string, b: string, sep: char)
    requires Separator(sep)
    ensures ValidatePhone(a + [sep] + b) == ValidatePhone(a + b)
  {
    CleanSkipsSeparator(a, b, sep);
    assert CleanPhone(a + [sep] + b) == CleanPhone(a + b);
  }

  lemma CleanSkipsSeparator(a: string, b: string, sep: char)
    requires Separator(sep)
    ensures Filter(IsNotSeparator(), a + [sep] + b) == Filter(IsNotSeparator(), a + b)
  {
    var f := IsNotSeparator();
    assert a + [sep] + b == a + ([sep] + b);
    FilterAppend(f, a, [sep] + b);
    FilterCons(f, sep, b);
    FilterAppend(f, a, b);
  }

  // ---------------------------------------------------------------------------
  // sanitize_input
  // ---------------------------------------------------------------------------

  /** The characters `re.sub(r'[<>\"\'`]', '', ...)` removes. */
  predicate Dangerous(c: char)
  {
    c == '<' || c == '>' || c == '"' || c == '\'' || c == '`'
  }

  predicate NoDangerous(s: string)
  {
    forall k :: 0 <= k < |s| ==> !Dangerous(s[k])
  }

  function IsHarmless(): char -> bool
  {
    (c: char) => !Dangerous(c)
  }

  /** The input with every dangerous character removed, the rest in order. */
  function RemoveDangerous(s: string): (r: string)
    ensures NoDangerous(r)
    ensures IsSubsequence(r, s)
    ensures NoDangerous(s) ==> r == s
    ensures forall x :: !Dangerous(x) ==> multiset(r)[x] == multiset(s)[x]
  {
    FilterIsSubsequence(IsHarmless(), s);
    FilterMultiset(IsHarmless(), s);
    assert NoDangerous(s) ==> Filter(IsHarmless(), s) == s by {
      if NoDangerous(s) {
        FilterAll(IsHarmless(), s);
      }
    }
    Filter(IsHarmless(), s)
  }

  /** A word of `str.split()`: non-empty, no whitespace. */
  predicate IsWord(w: string)
  {
    w != [] && forall k :: 0 <= k < |w| ==> !IsSpace(w[k])
  }

  /** The length of the run of non-whitespace characters that starts `s`. */
  function WordLen(s: string): (n: nat)
    ensures n <= |s|
    ensures forall k :: 0 <= k < n ==> !IsSpace(s[k])
    ensures n < |s| ==> IsSpace(s[n])
  {
    if s == [] || IsSpace(s[0]) then 0 else 1 + WordLen(s[1..])
  }

  /** `str.split()`: the maximal runs of non-whitespace characters. */
  function Words(s: string): (ws: seq<string>)
    ensures forall k :: 0 <= k < |ws| ==> IsWord(ws[k])
    decreases |s|
  {
    if s == [] then []
    else if IsSpace(s[0]) then Words(s[1..])
    else
      var n := WordLen(s);
      [s[..n]] + Words(s[n..])
  }

  /** `' '.join(ws)`. */
  function Join(ws: seq<string>): string
  {
    if ws == [] then []
    else if |ws| == 1 then ws[0]
    else ws[0] + " " + Join(ws[1..])
  }

  /** `str.lstrip()`: what is left after the leading whitespace. */
  function StripLeft(s: string): (r: string)
    ensures |r| <= |s| && r == s[|s| - |r|..]
    ensures forall k :: 0 <= k < |s| - |r| ==> IsSpace(s[k])
    ensures r != [] ==> !IsSpace(r[0])
  {
    if s != [] && IsSpace(s[0]) then StripLeft(s[1..]) else s
  }

  /** `str.rstrip()`: what is left before the trailing whitespace. */
  function StripRight(s: string): (r: string)
    ensures |r| <= |s| && r == s[..|r|]
    ensures forall k :: |r| <= k < |s| ==> IsSpace(s[k])
    ensures r != [] ==> !IsSpace(r[|r| - 1])
  {
    if s != [] && IsSpace(s[|s| - 1]) then StripRight(s[..|s| - 1]) else s
  }

  /** `str.strip()`. */
  function Strip(s: string): (r: string)
    ensures r != [] ==> !IsSpace(r[0]) && !IsSpace(r[|r| - 1])
    ensures IsSubstring(r, s)
  {
    var l := StripLeft(s);
    var r := StripRight(l);
    var i := |s| - |l|;
    assert r == s[i..i + |r|] by {
      assert l == s[i..] && r == l[..|r|];
      assert s[i..][..|r|] == s[i..i + |r|];
    }
    SubstringAt(r, s, i);
    r
  }

  /** Normal form of the output: whitespace occurs only as single spaces
      between two non-whitespace characters (so never at either end). */
  predicate SingleSpaced(s: string)
  {
    forall k :: 0 <= k < |s| && IsSpace(s[k]) ==>
      s[k] == ' ' && 0 < k < |s| - 1 && !IsSpace(s[k + 1])
  }

  /** `sanitize_input`: drop the dangerous characters, collapse whitespace
      runs into single spaces, strip both ends. The output is the words of
      the cleaned input joined by single spaces. */
  function SanitizeInput(s: string): (r: string)
    ensures NoDangerous(r)
    ensures SingleSpaced(r)
    ensures Words(r) == Words(RemoveDangerous(s))
  {
    var ws := Words(RemoveDangerous(s));
    WordsKeep(RemoveDangerous(s));
    JoinSingleSpaced(ws);
    JoinKeeps(ws);
    WordsJoin(ws);
    StripSingleSpaced(Join(ws));
    Strip(Join(ws))
  }

  /** A run of non-whitespace followed by whitespace (or nothing) is one word. */
  lemma {:induction false} WordLenOfWord(w: string, t: string)
    requires IsWord(w)
    requires t == [] || IsSpace(t[0])
    ensures WordLen(w + t) == |w|
  {
    if |w| > 1 {
      assert (w + t)[1..] == w[1..] + t;
      WordLenOfWord(w[1..], t);
    } else {
      assert (w + t)[1..] == t;
    }
  }

  /** `' '.join(ws).split() == ws` for a list of words. */
  lemma {:induction false} WordsJoin(ws: seq<string>)
    requires forall k :: 0 <= k < |ws| ==> IsWord(ws[k])
    ensures Words(Join(ws)) == ws
  {
    if ws == [] {
    } else if |ws| == 1 {
      var w := ws[0];
      WordLenOfWord(w, []);
      assert w + [] == w;
      assert w[|w|..] == [];
      assert w[..|w|] == w;
    } else {
      var w, rest := ws[0], Join(ws[1..]);
      var j := w + " " + rest;
      assert j == w + (" " + rest);
      WordLenOfWord(w, " " + rest);
      assert j[..|w|] == w;
      assert j[|w|..] == " " + rest;
      assert (" " + rest)[1..] == rest;
      WordsJoin(ws[1..]);
      assert ws == [w] + ws[1..];
    }
  }

  /** The join of a list of words is in normal form, and empty only for no
      words. */
  lemma {:induction false} JoinSingleSpaced(ws: seq<string>)
    requires forall k :: 0 <= k < |ws| ==> IsWord(ws[k])
    ensures SingleSpaced(Join(ws))
    ensures Join(ws) == [] <==> ws == []
  {
    if |ws| == 1 {
    } else if |ws| > 1 {
      var w, rest := ws[0], Join(ws[1..]);
      JoinSingleSpaced(ws[1..]);
      var j := Join(ws);
      assert j == w + " " + rest;
      forall k | 0 <= k < |j| && IsSpace(j[k])
        ensures j[k] == ' ' && 0 < k < |j| - 1 && !IsSpace(j[k + 1])
      {
        if k == |w| {
          assert j[k + 1] == rest[0];
        } else if k > |w| {
          assert j[k] == rest[k - |w| - 1];
          assert k + 1 < |j| ==> j[k + 1] == rest[k - |w|];
        }
      }
    }
  }

  /** The words of a string without dangerous characters have none. */
  lemma {:induction false} WordsKeep(s: string)
    requires NoDangerous(s)
    ensures forall k :: 0 <= k < |Words(s)| ==> NoDangerous(Words(s)[k])
    decreases |s|
  {
    if s != [] {
      if IsSpace(s[0]) {
        WordsKeep(s[1..]);
      } else {
        var n := WordLen(s);
        WordsKeep(s[n..]);
        assert forall k :: 0 <= k < n ==> s[..n][k] == s[k];
        assert forall k :: 1 <= k < |Words(s)| ==> Words(s)[k] == Words(s[n..])[k - 1];
      }
    }
  }

  /** Joining with spaces adds no dangerous character. */
  lemma {:induction false} JoinKeeps(ws: seq<string>)
    requires forall k :: 0 <= k < |ws| ==> NoDangerous(ws[k])
    ensures NoDangerous(Join(ws))
  {
    if |ws| > 1 {
      JoinKeeps(ws[1..]);
      var w, rest := ws[0], Join(ws[1..]);
      var j := w + " " + rest;
      forall k | 0 <= k < |j|
        ensures !Dangerous(j[k])
      {
        if k > |w| {
          assert j[k] == rest[k - |w| - 1];
        }
      }
    }
  }

  /** Stripping a string in normal form changes nothing. */
  lemma StripSingleSpaced(s: string)
    requires SingleSpaced(s)
    ensures Strip(s) == s
  {
    if s != [] {
      assert !IsSpace(s[0]);
      assert !IsSpace(s[|s| - 1]);
    }
  }

  /** Sanitizing twice gives the same string as sanitizing once. */
  lemma SanitizeIdempotent(s: string)
    ensures SanitizeInput(SanitizeInput(s)) == SanitizeInput(s)
  {
    var r := SanitizeInput(s);
    var ws := Words(RemoveDangerous(s));
    SanitizeUnfold(s);
    SanitizeUnfold(r);
    assert RemoveDangerous(r) == r;
    assert Words(RemoveDangerous(r)) == ws;
  }

  lemma SanitizeUnfold(s: string)
    ensures SanitizeInput(s) == Strip(Join(Words(RemoveDangerous(s))))
  {
  }

  // ---------------------------------------------------------------------------
  // Count-based statistics
  // ---------------------------------------------------------------------------

  /** `part / total * 100`, and 0 for an empty total. Python computes it in
      floating point; the model uses exact reals. */
  function Percent(part: nat, total: nat): (r: real)
    ensures total == 0 ==> r == 0.0
    ensures total > 0 ==> r * (total as real) == 100.0 * (part as real)
    ensures part <= total ==> 0.0 <= r <= 100.0
  {
    if total == 0 then 0.0 else (part as real) / (total as real) * 100.0
  }

  /** `d.get('status') == st` for a dictionary `d`. */
  function StatusIs(st: string): Dict -> bool
  {
    (d: Dict) => Get(d, "status") == JStr(st)
  }

  /** A status none of `a`, `b`, `c`. */
  function StatusNoneOf(a: string, b: string, c: string): Dict -> bool
  {
    (d: Dict) => !StatusIs(a)(d) && !StatusIs(b)(d) && !StatusIs(c)(d)
  }

  /** Three distinct statuses and "none of them" split any list. */
  lemma {:induction false} StatusCounts(ds: seq<Dict>, a: string, b: string, c: string)
    requires a != b && b != c && a != c
    ensures |Filter(StatusIs(a), ds)| + |Filter(StatusIs(b), ds)| + |Filter(StatusIs(c), ds)|
          + |Filter(StatusNoneOf(a, b, c), ds)| == |ds|
  {
    if ds != [] {
      StatusCounts(ds[1..], a, b, c);
    }
  }

  datatype AckRates = AckRates(
    totalReceipts: nat,
    acknowledged: nat,
    pending: nat,
    failed: nat,
    acknowledgmentRate: real,
    pendingRate: real,
    failureRate: real)

  /** `calculate_acknowledgment_rate`: exact status strings are counted, so a
      `retry_pending` or `expired` receipt lands in no bucket. */
  function CalculateAcknowledgmentRate(rs: seq<Dict>): (a: AckRates)
    ensures a.totalReceipts == |rs|
    ensures a.acknowledged == |Filter(StatusIs("acknowledged"), rs)|
    ensures a.pending == |Filter(StatusIs("pending"), rs)|
    ensures a.failed == |Filter(StatusIs("failed"), rs)|
    ensures a.acknowledged + a.pending + a.failed <= a.totalReceipts
    ensures a.acknowledgmentRate == Percent(a.acknowledged, a.totalReceipts)
    ensures a.pendingRate == Percent(a.pending, a.totalReceipts)
    ensures a.failureRate == Percent(a.failed, a.totalReceipts)
    ensures rs == [] ==> a == AckRates(0, 0, 0, 0, 0.0, 0.0, 0.0)
  {
    if |rs| == 0 then AckRates(0, 0, 0, 0, 0.0, 0.0, 0.0)
    else
      var acknowledged := |Filter(StatusIs("acknowledged"), rs)|;
      var pending := |Filter(StatusIs("pending"), rs)|;
      var failed := |Filter(StatusIs("failed"), rs)|;
      StatusCounts(rs, "acknowledged", "pending", "failed");
      AckRates(|rs|, acknowledged, pending, failed,
               Percent(acknowledged, |rs|), Percent(pending, |rs|), Percent(failed, |rs|))
  }

  /** The three buckets cover every receipt exactly when every receipt has
      one of the three counted statuses. */
  lemma AckBucketsCoverAll(rs: seq<Dict>)
    ensures var a := CalculateAcknowledgmentRate(rs);
      a.acknowledged + a.pending + a.failed == a.totalReceipts
      <==> forall k :: 0 <= k < |rs| ==> Get(rs[k], "status") in {JStr("acknowledged"), JStr("pending"), JStr("failed")}
  {
    var others := StatusNoneOf("acknowledged", "pending", "failed");
    StatusCounts(rs, "acknowledged", "pending", "failed");
    if forall k :: 0 <= k < |rs| ==> Get(rs[k], "status") in {JStr("acknowledged"), JStr("pending"), JStr("failed")} {
      FilterNone(others, rs);
    } else {
      var k :| 0 <= k < |rs| && Get(rs[k], "status") !in {JStr("acknowledged"), JStr("pending"), JStr("failed")};
      assert others(rs[k]);
      assert rs[k] in Filter(others, rs);
    }
  }

  /** The dictionaries of `delivery_results.get('deliveries', [])`, or the
      exception the counting raises on them: `len` of a value without a
      length is a TypeError, `.get` on an element that is not a dictionary
      an AttributeError (iterating a non-empty string or dictionary yields
      strings). */
  function DeliveryDicts(results: Dict): (r: Result<seq<Dict>, PyError>)
    ensures "deliveries" !in results ==> r == Success([])
    ensures r.Success? && "deliveries" in results && results["deliveries"].JList? ==>
      |r.value| == |results["deliveries"].items| &&
      forall k :: 0 <= k < |r.value| ==> results["deliveries"].items[k] == JObject(r.value[k])
  {
    if "deliveries" !in results then Success([])
    else match results["deliveries"]
      case JList(items) =>
        if forall k :: 0 <= k < |items| ==> items[k].JObject? then
          Success(seq(|items|, k requires 0 <= k < |items| => items[k].fields))
        else Failure(AttributeError)
      case JStr(s) => if s == "" then Success([]) else Failure(AttributeError)
      case JObject(m) => if m == map[] then Success([]) else Failure(AttributeError)
      case _ => Failure(TypeError)
  }

  datatype AlertSummary = AlertSummary(
    drugName: Value,
    alertType: Value,
    severity: Value,
    agentType: Value,
    timestamp: Value,
    totalSent: nat,
    successful: nat,
    failed: nat,
    successRate: real,
    targetCriteria: Value)

  /** `create_alert_summary`: the report's identifying fields, the delivery
      counts by exact status `sent` / `failed`, and the success rate. */
  function CreateAlertSummary(report: Dict, results: Dict): (r: Result<AlertSummary, PyError>)
    ensures r.Success? <==> DeliveryDicts(results).Success?
    ensures r.Success? ==>
      var ds := DeliveryDicts(results).value;
      && r.value.totalSent == |ds|
      && r.value.successful == |Filter(StatusIs("sent"), ds)|
      && r.value.failed == |Filter(StatusIs("failed"), ds)|
      && r.value.successful + r.value.failed <= r.value.totalSent
      && r.value.successRate == Percent(r.value.successful, r.value.totalSent)
      && r.value.drugName == Get(report, "drug_name")
      && r.value.alertType == Get(report, "alert_type")
      && r.value.severity == Get(report, "severity")
      && r.value.agentType == Get(results, "agent_type")
      && r.value.timestamp == Get(results, "timestamp")
      && r.value.targetCriteria == Get(results, "target_criteria")
    ensures "deliveries" !in results ==> r.Success? && r.value.totalSent == 0 && r.value.successRate == 0.0
  {
    var ds :- DeliveryDicts(results);
    var successful := |Filter(StatusIs("sent"), ds)|;
    var failed := |Filter(StatusIs("failed"), ds)|;
    StatusCounts(ds, "sent", "failed", "pending");
    Success(AlertSummary(
      Get(report, "drug_name"), Get(report, "alert_type"), Get(report, "severity"),
      Get(results, "agent_type"), Get(results, "timestamp"),
      |ds|, successful, failed, Percent(successful, |ds|), Get(results, "target_criteria")))
  }

  // ---------------------------------------------------------------------------
  // get_severity_color
  // ---------------------------------------------------------------------------

  const SeverityColors: map<string, string> :=
    map["critical" := "#FF0000", "high" := "#FF6600", "medium" := "#FFCC00", "low" := "#00CC00"]

  const Gray := "#808080"

  /** `get_severity_color`: the colour of the lower-cased severity, gray for
      any other name. */
  function GetSeverityColor(severity: string): (color: string)
    ensures Lower(severity) in SeverityColors ==> color == SeverityColors[Lower(severity)]
    ensures Lower(severity) !in SeverityColors ==> color == Gray
  {
    var key := Lower(severity);
    if key in SeverityColors then SeverityColors[key] else Gray
  }

  /** The colour ignores letter case. */
  lemma ColorIgnoresCase(a: string, b: string)
    requires EqualsIgnoringCase(a, b)
    ensures GetSeverityColor(a) == GetSeverityColor(b)
  {
  }

  /** The colours are those of the severity ranking of drug reports: gray
      exactly for the severities ranked 0, and otherwise one colour per
      rank, so the colour determines the rank. */
  lemma ColorAgreesWithRank(a: string, b: string)
    ensures GetSeverityColor(a) == Gray <==> Lower(a) !in DrugReports.SeverityLevels
    ensures GetSeverityColor(a) != Gray && GetSeverityColor(a) == GetSeverityColor(b) ==>
      Lower(a) == Lower(b)
  {
  }
}
