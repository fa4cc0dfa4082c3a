/** The input classifier of src/lib/security.ts: a fixed list of regular expressions, each
    modelled by a matcher that says how long a match starting at a given position is, a
    global `replace(…, '')` modelled as a left-to-right scan that drops every match, and the
    classifier itself as a sequence of stages, each with the message it reports. */
module Security {
  import opened Strings

  // ---------------------------------------------------------------------------
  // Patterns
  // ---------------------------------------------------------------------------

  /** Every pattern the source declares, including the two it never uses
      (`VbscriptProtocol`, `DangerousChars`). */
  datatype Pattern =
    | ScriptTags          // /<script[^>]*>.*?<\/script>/gi
    | JavascriptProtocol  // /javascript:/gi
    | DataProtocol        // /data:/gi
    | VbscriptProtocol    // /vbscript:/gi
    | HtmlTags            // /<\/?[a-zA-Z][^>]*>/g
    | CommandInjection    // one of ; & | ` $ [ ] { }
    | SqlInjection        // a whole word from SqlKeywords, any case
    | UrlInjection        // a scheme from UrlSchemes, any case
    | FilePath            // ../ or ..\
    | DangerousChars      // one of < > " ' &
    | NullByte            // the character U+0000
    | ControlChars        // U+0000-0008, 000B, 000C, 000E-001F, 007F
    | Encoding            // %hh, \xhh or \uhhhh
    | UnusualChars        // anything but U+0020-007E, \n, \r, \t
    | RepeatedChars       // a character other than a line terminator, then 10+ copies

  predicate IsCommandChar(c: char)
  {
    c == ';' || c == '&' || c == '|' || c == '`' || c == '$' || c == '[' || c == ']'
    || c == '{' || c == '}'
  }

  predicate IsControlChar(c: char)
  {
    c <= '\U{0008}' || c == '\U{000B}' || c == '\U{000C}' || ('\U{000E}' <= c <= '\U{001F}')
    || c == '\U{007F}'
  }

  predicate IsDangerousChar(c: char)
  {
    c == '<' || c == '>' || c == '"' || c == '\'' || c == '&'
  }

  predicate IsUnusualChar(c: char)
  {
    !((' ' <= c <= '~') || c == '\n' || c == '\r' || c == '\t')
  }

  /** The patterns that match exactly one character out of a class. */
  predicate IsCharClass(pat: Pattern)
  {
    pat.CommandInjection? || pat.DangerousChars? || pat.NullByte? || pat.ControlChars?
    || pat.UnusualChars?
  }

  /** The class of a one-character pattern. */
  predicate InClass(pat: Pattern, c: char)
    requires IsCharClass(pat)
  {
    match pat
    case CommandInjection => IsCommandChar(c)
    case DangerousChars => IsDangerousChar(c)
    case NullByte => c == '\0'
    case ControlChars => IsControlChar(c)
    case UnusualChars => IsUnusualChar(c)
  }

  /** The alternatives of the SQL pattern, in the order the regular expression tries them. */
  const SqlKeywords: seq<string> := ["union", "select", "insert", "update", "delete", "drop",
    "create", "alter", "exec", "execute", "script", "javascript", "vbscript", "onload",
    "onerror", "onclick"]

  const UrlSchemes: seq<string> := ["https://", "http://", "ftp://", "file://"]

  const TraversalSteps: seq<string> := ["../", "..\\"]

  /** `\b`: exactly one of the characters around position `i` is a word character. */
  predicate AtWordBoundary(s: string, i: nat)
    requires i <= |s|
  {
    (i > 0 && IsWordChar(s[i - 1])) != (i < |s| && IsWordChar(s[i]))
  }

  /** One of `lits`, of length `n`, occurs at `p` (ignoring ASCII case when `ignoreCase`). */
  predicate LiteralAt(s: string, p: nat, n: nat, lits: seq<string>, ignoreCase: bool)
  {
    exists k :: 0 <= k < |lits| && n == |lits[k]|
      && (if ignoreCase then HasAtIgnoringCase(s, p, lits[k]) else HasAt(s, p, lits[k]))
  }

  /** The length of the first alternative of `lits` that occurs at `p` (ignoring ASCII case
      when `ignoreCase`) and, when `wholeWord`, ends at a word boundary. */
  function FirstLiteral(s: string, p: nat, lits: seq<string>, ignoreCase: bool, wholeWord: bool)
    : (r: Option<nat>)
    requires forall k :: 0 <= k < |lits| ==> lits[k] != []
    ensures r.Some? ==> 1 <= r.value && p + r.value <= |s|
    ensures r.Some? ==> LiteralAt(s, p, r.value, lits, ignoreCase)
  {
    if lits == [] then None
    else if (if ignoreCase then HasAtIgnoringCase(s, p, lits[0]) else HasAt(s, p, lits[0]))
      && (!wholeWord || AtWordBoundary(s, p + |lits[0]|))
    then Some(|lits[0]|)
    else
      var r := FirstLiteral(s, p, lits[1..], ignoreCase, wholeWord);
      assert r.Some? ==> exists k :: (1 <= k < |lits| && r.value == |lits[k]|
        && (if ignoreCase then HasAtIgnoringCase(s, p, lits[k]) else HasAt(s, p, lits[k]))) by {
        if r.Some? {
          var k :| 0 <= k < |lits[1..]| && r.value == |lits[1..][k]|
            && (if ignoreCase then HasAtIgnoringCase(s, p, lits[1..][k]) else HasAt(s, p, lits[1..][k]));
          assert lits[1..][k] == lits[k + 1];
        }
      }
      r
  }

  /** The lazy `.*?<\/script>` of the script pattern: the first case-insensitive
      `</script>` at or after `i` that is reached without crossing a line terminator. */
  function ScriptCloseFrom(s: string, i: nat): (r: Option<nat>)
    requires i <= |s|
    ensures r.Some? ==> i <= r.value && HasAtIgnoringCase(s, r.value, "</script>")
    ensures r.Some? ==> forall k :: i <= k < r.value ==> !IsLineTerminator(s[k])
    decreases |s| - i
  {
    if HasAtIgnoringCase(s, i, "</script>") then Some(i)
    else if i == |s| || IsLineTerminator(s[i]) then None
    else ScriptCloseFrom(s, i + 1)
  }

  /** Length of the run of characters equal to `s[p]` that starts at `p`. */
  function RunLength(s: string, p: nat): (n: nat)
    requires p < |s|
    ensures 1 <= n && p + n <= |s|
    ensures forall k :: p <= k < p + n ==> s[k] == s[p]
    ensures p + n < |s| ==> s[p + n] != s[p]
    decreases |s| - p
  {
    if p + 1 < |s| && s[p + 1] == s[p] then 1 + RunLength(s, p + 1) else 1
  }

  /** The script pattern at `p`: `<script`, the first `>` after it, then the lazy body up to
      the closing tag. */
  function ScriptMatchAt(s: string, p: nat): (r: Option<nat>)
    requires p <= |s|
    ensures r.Some? ==> 17 <= r.value && p + r.value <= |s|
    ensures r.Some? ==> (HasAtIgnoringCase(s, p, "<script")
      && HasAtIgnoringCase(s, p + r.value - 9, "</script>")
      && exists g :: p + 7 <= g < p + r.value - 9 && s[g] == '>')
  {
    if !HasAtIgnoringCase(s, p, "<script") then None
    else match IndexOf(s, '>', p + 7)
      case None => None
      case Some(g) =>
        match ScriptCloseFrom(s, g + 1)
        case None => None
        case Some(q) => Some(q + 9 - p)
  }

  /** The HTML tag pattern at `p`: `<`, an optional `/`, a letter, then up to the first `>`. */
  function HtmlTagMatchAt(s: string, p: nat): (r: Option<nat>)
    requires p <= |s|
    ensures r.Some? ==> 3 <= r.value && p + r.value <= |s|
    ensures r.Some? ==> (s[p] == '<' && s[p + r.value - 1] == '>'
      && forall k :: p < k < p + r.value - 1 ==> s[k] != '>')
  {
    if p < |s| && s[p] == '<' then
      var j := if p + 1 < |s| && s[p + 1] == '/' then p + 2 else p + 1;
      if j < |s| && IsAsciiLetter(s[j]) then
        match IndexOf(s, '>', j + 1)
        case None => None
        case Some(g) => Some(g + 1 - p)
      else None
    else None
  }

  /** The encoding pattern at `p`: the first of `%hh`, `\xhh`, `\uhhhh` that matches. */
  function EncodingMatchAt(s: string, p: nat): (r: Option<nat>)
    requires p <= |s|
    ensures r.Some? ==> 3 <= r.value && p + r.value <= |s|
  {
    if p + 3 <= |s| && s[p] == '%' && IsHexDigit(s[p + 1]) && IsHexDigit(s[p + 2]) then Some(3)
    else if p + 4 <= |s| && s[p] == '\\' && s[p + 1] == 'x'
      && IsHexDigit(s[p + 2]) && IsHexDigit(s[p + 3]) then Some(4)
    else if p + 6 <= |s| && s[p] == '\\' && s[p + 1] == 'u'
      && IsHexDigit(s[p + 2]) && IsHexDigit(s[p + 3])
      && IsHexDigit(s[p + 4]) && IsHexDigit(s[p + 5]) then Some(6)
    else None
  }

  /** The repeated-character pattern at `p`: the whole run of `s[p]`, when it is at least 11
      long and `s[p]` is not a line terminator. */
  function RepeatMatchAt(s: string, p: nat): (r: Option<nat>)
    requires p <= |s|
    ensures r.Some? ==> 11 <= r.value && p + r.value <= |s|
    ensures r.Some? ==> forall k :: p <= k < p + r.value ==> s[k] == s[p]
  {
    if p < |s| && !IsLineTerminator(s[p]) && RunLength(s, p) >= 11 then Some(RunLength(s, p))
    else None
  }

  /** The SQL pattern at `p`: a word boundary, then the first keyword that is followed by a
      word boundary. */
  function SqlMatchAt(s: string, p: nat): (r: Option<nat>)
    requires p <= |s|
    ensures r.Some? ==> 1 <= r.value && p + r.value <= |s|
  {
    if AtWordBoundary(s, p) then FirstLiteral(s, p, SqlKeywords, true, true) else None
  }

  /** The length of the match of `pat` that the regular-expression engine finds when it
      tries position `p` of `s`, or `None` when no match starts there. */
  function MatchAt(pat: Pattern, s: string, p: nat): (r: Option<nat>)
    requires p <= |s|
    ensures r.Some? ==> 1 <= r.value && p + r.value <= |s|
  {
    match pat
    case ScriptTags => ScriptMatchAt(s, p)
    case JavascriptProtocol => if HasAtIgnoringCase(s, p, "javascript:") then Some(11) else None
    case DataProtocol => if HasAtIgnoringCase(s, p, "data:") then Some(5) else None
    case VbscriptProtocol => if HasAtIgnoringCase(s, p, "vbscript:") then Some(9) else None
    case HtmlTags => HtmlTagMatchAt(s, p)
    case SqlInjection => SqlMatchAt(s, p)
    case UrlInjection => FirstLiteral(s, p, UrlSchemes, true, false)
    case FilePath => FirstLiteral(s, p, TraversalSteps, false, false)
    case Encoding => EncodingMatchAt(s, p)
    case RepeatedChars => RepeatMatchAt(s, p)
    case _ => if p < |s| && InClass(pat, s[p]) then Some(1) else None
  }

  /** `pattern.test(s)` from a fresh start: a match begins somewhere in `s`. */
  predicate Matches(pat: Pattern, s: string)
  {
    exists p :: 0 <= p < |s| && MatchAt(pat, s, p).Some?
  }

  /** A table of match lengths for `s`: one entry per position, each match inside `s`. */
  predicate ValidTable(s: string, t: seq<Option<nat>>)
  {
    |t| == |s| && forall q :: 0 <= q < |s| && t[q].Some? ==> 1 <= t[q].value && q + t[q].value <= |s|
  }

  /** What the engine finds when it tries each position of `s` in turn. */
  function MatchTable(pat: Pattern, s: string): seq<Option<nat>>
  {
    seq(|s|, q requires 0 <= q < |s| => MatchAt(pat, s, q))
  }

  /** The scan of a global `replace(…, '')` from position `p` on: a match is dropped and the
      scan resumes right after it; a character where no match starts is kept. */
  function DropMatchesFrom(s: string, t: seq<Option<nat>>, p: nat): (r: string)
    requires ValidTable(s, t) && p <= |s|
    ensures |r| <= |s| - p
    decreases |s| - p
  {
    if p == |s| then []
    else match t[p]
      case Some(n) => DropMatchesFrom(s, t, p + n)
      case None => [s[p]] + DropMatchesFrom(s, t, p + 1)
  }

  /** `s.replace(pattern, '')`. */
  function Remove(pat: Pattern, s: string): (r: string)
    ensures |r| <= |s|
  {
    DropMatchesFrom(s, MatchTable(pat, s), 0)
  }

  // ---------------------------------------------------------------------------
  // Properties of the matchers
  // ---------------------------------------------------------------------------

  /** Matching an SQL keyword: the matched text, lowered, is one of the keywords, and it is a
      whole word (word boundaries on both sides). */
  lemma SqlMatchIsWholeKeyword(s: string, p: nat)
    requires p <= |s| && SqlMatchAt(s, p).Some?
    ensures var n := SqlMatchAt(s, p).value;
      AtWordBoundary(s, p) && AtWordBoundary(s, p + n)
      && LiteralAt(s, p, n, SqlKeywords, true)
  {
    SqlKeywordsNonEmpty();
    SqlBoundaryAfter(s, p, SqlKeywords);
  }

  lemma SqlKeywordsNonEmpty()
    ensures forall k :: 0 <= k < |SqlKeywords| ==> SqlKeywords[k] != []
  {
  }

  lemma {:induction false} SqlBoundaryAfter(s: string, p: nat, lits: seq<string>)
    requires forall k :: 0 <= k < |lits| ==> lits[k] != []
    requires FirstLiteral(s, p, lits, true, true).Some?
    ensures p + FirstLiteral(s, p, lits, true, true).value <= |s|
    ensures AtWordBoundary(s, p + FirstLiteral(s, p, lits, true, true).value)
  {
    if !(HasAtIgnoringCase(s, p, lits[0]) && AtWordBoundary(s, p + |lits[0]|)) {
      SqlBoundaryAfter(s, p, lits[1..]);
    }
  }

  // ---------------------------------------------------------------------------
  // Properties of removal
  // ---------------------------------------------------------------------------

  /** The scan only deletes characters. */
  lemma {:induction false} DropIsSubsequence(s: string, t: seq<Option<nat>>, p: nat)
    requires ValidTable(s, t) && p <= |s|
    ensures IsSubsequence(DropMatchesFrom(s, t, p), s[p..])
    decreases |s| - p
  {
    if p < |s| {
      if t[p].Some? {
        DropIsSubsequence(s, t, p + t[p].value);
        assert s[p..][t[p].value..] == s[p + t[p].value..];
        SubsequenceOfSuffix(DropMatchesFrom(s, t, p), s[p..], t[p].value);
      } else {
        DropIsSubsequence(s, t, p + 1);
        assert s[p..][1..] == s[p + 1..];
        SubsequenceKeepHead(DropMatchesFrom(s, t, p + 1), s[p..]);
      }
    }
  }

  /** When exactly the characters of a class match, each alone, none of them survives. */
  lemma {:induction false} DropClears(s: string, t: seq<Option<nat>>, p: nat, bad: char -> bool)
    requires ValidTable(s, t) && p <= |s|
    requires forall q :: 0 <= q < |s| ==> t[q] == (if bad(s[q]) then Some(1) else None)
    ensures forall k :: 0 <= k < |DropMatchesFrom(s, t, p)| ==> !bad(DropMatchesFrom(s, t, p)[k])
    decreases |s| - p
  {
    if p < |s| {
      DropClears(s, t, p + 1, bad);
      if !bad(s[p]) {
        var rest := DropMatchesFrom(s, t, p + 1);
        assert DropMatchesFrom(s, t, p) == [s[p]] + rest;
        assert forall k :: 1 <= k < |rest| + 1 ==> ([s[p]] + rest)[k] == rest[k - 1];
      }
    }
  }

  /** With no match anywhere the scan keeps everything. */
  lemma {:induction false} DropNothing(s: string, t: seq<Option<nat>>, p: nat)
    requires ValidTable(s, t) && p <= |s|
    requires forall q :: 0 <= q < |s| ==> t[q].None?
    ensures DropMatchesFrom(s, t, p) == s[p..]
    decreases |s| - p
  {
    if p < |s| {
      DropNothing(s, t, p + 1);
      assert [s[p]] + s[p + 1..] == s[p..];
    }
  }

  /** What `replace(…, '')` leaves is obtained from its argument by deleting characters. */
  lemma RemoveIsSubsequence(pat: Pattern, s: string)
    ensures IsSubsequence(Remove(pat, s), s)
  {
    DropIsSubsequence(s, MatchTable(pat, s), 0);
    assert s[0..] == s;
  }

  /** Removing a one-character pattern leaves no character of its class. */
  lemma RemoveClears(pat: Pattern, s: string)
    requires IsCharClass(pat)
    ensures forall k :: 0 <= k < |Remove(pat, s)| ==> !InClass(pat, Remove(pat, s)[k])
  {
    var t := MatchTable(pat, s);
    forall q | 0 <= q < |s| ensures t[q] == (if InClass(pat, s[q]) then Some(1) else None) {
      assert t[q] == MatchAt(pat, s, q);
    }
    DropClears(s, t, 0, c => InClass(pat, c));
  }

  /** Removing a pattern that does not match changes nothing. */
  lemma RemoveNoMatch(pat: Pattern, s: string)
    requires !Matches(pat, s)
    ensures Remove(pat, s) == s
  {
    var t := MatchTable(pat, s);
    forall q | 0 <= q < |s| ensures t[q].None? {
      assert t[q] == MatchAt(pat, s, q);
    }
    DropNothing(s, t, 0);
    assert s[0..] == s;
  }

  /** When a one-character pattern does not match, no character of its class occurs. */
  lemma NoMatchNoClassChar(pat: Pattern, s: string)
    requires IsCharClass(pat) && !Matches(pat, s)
    ensures forall k :: 0 <= k < |s| ==> !InClass(pat, s[k])
  {
    forall k | 0 <= k < |s| ensures !InClass(pat, s[k]) {
      assert MatchAt(pat, s, k).None?;
    }
  }

  // ---------------------------------------------------------------------------
  // The classifier as a sequence of stages
  // ---------------------------------------------------------------------------

  /** What a stage looks for: a pattern in the original input, or an input longer than a
      limit. */
  datatype Check = Detect(pattern: Pattern) | LongerThan(limit: nat)

  datatype Stage = Stage(check: Check, message: string)

  const MaxInputLength: nat := 10000

  /** The threat checks of `checkInputSecurity`, in the order they run. */
  const ThreatStages: seq<Stage> := [
    Stage(Detect(ScriptTags), "Script tag injection detected"),
    Stage(Detect(JavascriptProtocol), "JavaScript protocol injection detected"),
    Stage(Detect(DataProtocol), "Data protocol injection detected"),
    Stage(Detect(HtmlTags), "HTML tag injection detected"),
    Stage(Detect(CommandInjection), "Command injection attempt detected"),
    Stage(Detect(SqlInjection), "SQL injection pattern detected"),
    Stage(Detect(UrlInjection), "URL injection attempt detected"),
    Stage(Detect(FilePath), "File path traversal attempt detected"),
    Stage(LongerThan(MaxInputLength), "Input too long (potential DoS)"),
    Stage(Detect(NullByte), "Null byte injection detected"),
    Stage(Detect(ControlChars), "Control characters detected")
  ]

  /** The warning checks, which report but never sanitize. */
  const WarningStages: seq<Stage> := [
    Stage(Detect(Encoding), "Potential encoding attempt detected"),
    Stage(Detect(UnusualChars), "Unusual characters detected"),
    Stage(Detect(RepeatedChars), "Excessive repeated characters detected")
  ]

  /** Every check is made on the original input, never on the partly sanitized text. */
  predicate Fires(c: Check, input: string)
  {
    match c
    case Detect(pat) => Matches(pat, input)
    case LongerThan(n) => |input| > n
  }

  /** What a firing stage does to the text being sanitized. */
  function Strip(c: Check, text: string): (r: string)
    ensures |r| <= |text|
  {
    match c
    case Detect(pat) => Remove(pat, text)
    case LongerThan(_) => text
  }

  lemma StripIsSubsequence(c: Check, text: string)
    ensures IsSubsequence(Strip(c, text), text)
  {
    match c
    case Detect(pat) => RemoveIsSubsequence(pat, text);
    case LongerThan(_) => SubsequenceRefl(text);
  }

  /** The messages of the first `k` stages that fire on `input`. */
  function Reported(stages: seq<Stage>, input: string, k: nat): seq<string>
    requires k <= |stages|
  {
    if k == 0 then []
    else if Fires(stages[k - 1].check, input) then Reported(stages, input, k - 1) + [stages[k - 1].message]
    else Reported(stages, input, k - 1)
  }

  /** The text after the first `k` stages: each stage that fires strips its pattern. */
  function Sanitized(stages: seq<Stage>, input: string, k: nat): string
    requires k <= |stages|
  {
    if k == 0 then input
    else if Fires(stages[k - 1].check, input) then Strip(stages[k - 1].check, Sanitized(stages, input, k - 1))
    else Sanitized(stages, input, k - 1)
  }

  function ThreatsOf(input: string): seq<string>
  {
    Reported(ThreatStages, input, |ThreatStages|)
  }

  function WarningsOf(input: string): seq<string>
  {
    Reported(WarningStages, input, |WarningStages|)
  }

  function Sanitize(input: string): string
  {
    Sanitized(ThreatStages, input, |ThreatStages|)
  }

  datatype SecurityCheckResult = SecurityCheckResult(
    isSafe: bool, threats: seq<string>, warnings: seq<string>, sanitizedInput: string)

  /** Both results of the first `k` stages at once: the messages reported and the text left. */
  function Run(stages: seq<Stage>, input: string, k: nat): (seq<string>, string)
    requires k <= |stages|
  {
    if k == 0 then ([], input)
    else
      var prev := Run(stages, input, k - 1);
      if Fires(stages[k - 1].check, input)
      then (prev.0 + [stages[k - 1].message], Strip(stages[k - 1].check, prev.1))
      else prev
  }

  /** `Run` computes the two results together, stage by stage. */
  lemma {:induction false} RunGivesReportedAndSanitized(stages: seq<Stage>, input: string, k: nat)
    requires k <= |stages|
    ensures Run(stages, input, k) == (Reported(stages, input, k), Sanitized(stages, input, k))
  {
    if k > 0 {
      RunGivesReportedAndSanitized(stages, input, k - 1);
    }
  }

  /** One malicious-pattern block: when the pattern matches the original input, its message
      is pushed and the pattern is deleted from the text sanitized so far. Run as stage `k`
      of `stages`, it performs exactly that stage. */
  method ScreenThreat(ghost stages: seq<Stage>, ghost k: nat, input: string, pat: Pattern,
    msg: string, threats: seq<string>, sanitized: string)
    returns (threats': seq<string>, sanitized': string)
    requires k < |stages| && stages[k] == Stage(Detect(pat), msg)
    requires (threats, sanitized) == Run(stages, input, k)
    ensures (threats', sanitized') == Run(stages, input, k + 1)
  {
    threats', sanitized' := threats, sanitized;
    if Matches(pat, input) {
      threats' := threats + [msg];
      sanitized' := Remove(pat, sanitized);
    }
  }

  /** One suspicious-pattern block: it only pushes a warning. */
  method ScreenWarning(ghost stages: seq<Stage>, ghost k: nat, input: string, pat: Pattern,
    msg: string, warnings: seq<string>)
    returns (warnings': seq<string>)
    requires k < |stages| && stages[k] == Stage(Detect(pat), msg)
    requires warnings == Run(stages, input, k).0
    ensures warnings' == Run(stages, input, k + 1).0
  {
    warnings' := warnings;
    if Matches(pat, input) {
      warnings' := warnings + [msg];
    }
  }

  /** The first four malicious-pattern blocks: markup and script-protocol injection. */
  method ScreenMarkup(ghost stages: seq<Stage>, input: string, threats: seq<string>, sanitized: string)
    returns (threats': seq<string>, sanitized': string)
    requires stages == ThreatStages
    requires (threats, sanitized) == Run(stages, input, 0)
    ensures (threats', sanitized') == Run(stages, input, 4)
  {
    threats', sanitized' := ScreenThreat(stages, 0, input, ScriptTags,
      "Script tag injection detected", threats, sanitized);
    threats', sanitized' := ScreenThreat(stages, 1, input, JavascriptProtocol,
      "JavaScript protocol injection detected", threats', sanitized');
    threats', sanitized' := ScreenThreat(stages, 2, input, DataProtocol,
      "Data protocol injection detected", threats', sanitized');
    threats', sanitized' := ScreenThreat(stages, 3, input, HtmlTags,
      "HTML tag injection detected", threats', sanitized');
  }

  /** The last four malicious-pattern blocks: command, SQL, URL and path injection. */
  method ScreenInjection(ghost stages: seq<Stage>, input: string, threats: seq<string>, sanitized: string)
    returns (threats': seq<string>, sanitized': string)
    requires stages == ThreatStages
    requires (threats, sanitized) == Run(stages, input, 4)
    ensures (threats', sanitized') == Run(stages, input, 8)
  {
    threats', sanitized' := ScreenThreat(stages, 4, input, CommandInjection,
      "Command injection attempt detected", threats, sanitized);
    threats', sanitized' := ScreenThreat(stages, 5, input, SqlInjection,
      "SQL injection pattern detected", threats', sanitized');
    threats', sanitized' := ScreenThreat(stages, 6, input, UrlInjection,
      "URL injection attempt detected", threats', sanitized');
    threats', sanitized' := ScreenThreat(stages, 7, input, FilePath,
      "File path traversal attempt detected", threats', sanitized');
  }

  /** The suspicious-pattern blocks, which only warn. */
  method ScreenSuspicious(ghost stages: seq<Stage>, input: string) returns (warnings: seq<string>)
    requires stages == WarningStages
    ensures warnings == Run(stages, input, 3).0
  {
    warnings := ScreenWarning(stages, 0, input, Encoding,
      "Potential encoding attempt detected", []);
    warnings := ScreenWarning(stages, 1, input, UnusualChars,
      "Unusual characters detected", warnings);
    warnings := ScreenWarning(stages, 2, input, RepeatedChars,
      "Excessive repeated characters detected", warnings);
  }

  /** The additional checks: length, null bytes and control characters. */
  method ScreenAdditional(ghost stages: seq<Stage>, input: string, threats: seq<string>, sanitized: string)
    returns (threats': seq<string>, sanitized': string)
    requires stages == ThreatStages
    requires (threats, sanitized) == Run(stages, input, 8)
    ensures (threats', sanitized') == Run(stages, input, 11)
  {
    threats' := threats;
    if |input| > MaxInputLength {
      threats' := threats + ["Input too long (potential DoS)"];
    }
    threats', sanitized' := ScreenThreat(stages, 9, input, NullByte,
      "Null byte injection detected", threats', sanitized);
    threats', sanitized' := ScreenThreat(stages, 10, input, ControlChars,
      "Control characters detected", threats', sanitized');
  }

  /** `checkInputSecurity`: the blocks in the order of the source. It reports the threats and
      warnings of the stage tables, strips what the threat stages strip, trims, and calls the
      input safe exactly when no threat was reported. */
  method CheckInputSecurity(input: string) returns (result: SecurityCheckResult)
    ensures result.threats == ThreatsOf(input)
    ensures result.warnings == WarningsOf(input)
    ensures result.sanitizedInput == Trim(Sanitize(input))
    ensures result.isSafe <==> result.threats == []
  {
    ghost var stages, warningStages := ThreatStages, WarningStages;
    var threats, sanitized := ScreenMarkup(stages, input, [], input);
    threats, sanitized := ScreenInjection(stages, input, threats, sanitized);
    var warnings := ScreenSuspicious(warningStages, input);
    threats, sanitized := ScreenAdditional(stages, input, threats, sanitized);
    RunGivesReportedAndSanitized(stages, input, |stages|);
    RunGivesReportedAndSanitized(warningStages, input, |warningStages|);
    result := SecurityCheckResult(threats == [], threats, warnings, Trim(sanitized));
  }

  // ---------------------------------------------------------------------------
  // Properties of the classifier
  // ---------------------------------------------------------------------------

  /** A message is reported exactly when one of the stages carrying it fires. */
  lemma {:induction false} ReportedCharacterised(stages: seq<Stage>, input: string, k: nat, m: string)
    requires k <= |stages|
    ensures m in Reported(stages, input, k) <==>
      exists i :: 0 <= i < k && stages[i].message == m && Fires(stages[i].check, input)
  {
    if k > 0 {
      ReportedCharacterised(stages, input, k - 1, m);
    }
  }

  /** The messages come in stage order, so each at most once when the messages differ. */
  lemma {:induction false} ReportedInStageOrder(stages: seq<Stage>, input: string, k: nat)
    requires k <= |stages|
    ensures IsSubsequence(Reported(stages, input, k), MessagesOf(stages)[..k])
  {
    if k > 0 {
      ReportedInStageOrder(stages, input, k - 1);
      assert MessagesOf(stages)[..k] == MessagesOf(stages)[..k - 1] + [stages[k - 1].message];
      if Fires(stages[k - 1].check, input) {
        SubsequenceSnoc(Reported(stages, input, k - 1), MessagesOf(stages)[..k - 1], stages[k - 1].message);
      } else {
        SubsequenceExtend(Reported(stages, input, k - 1), MessagesOf(stages)[..k - 1], stages[k - 1].message);
      }
    }
  }

  /** The stage messages, in stage order. */
  function MessagesOf(stages: seq<Stage>): seq<string>
  {
    seq(|stages|, i requires 0 <= i < |stages| => stages[i].message)
  }

  lemma ThreatMessagesDistinct()
    ensures NoDuplicates(MessagesOf(ThreatStages))
  {
    var ms := MessagesOf(ThreatStages);
    forall i, j | 0 <= i < j < |ms| ensures ms[i] != ms[j] {
      assert |ms[i]| != |ms[j]| || ms[i][0] != ms[j][0];
    }
  }

  /** The threats are reported in the fixed stage order, each at most once. */
  lemma ThreatsOrderedAndDistinct(input: string)
    ensures IsSubsequence(ThreatsOf(input), MessagesOf(ThreatStages))
    ensures NoDuplicates(ThreatsOf(input))
  {
    ReportedInStageOrder(ThreatStages, input, |ThreatStages|);
    assert MessagesOf(ThreatStages)[..|ThreatStages|] == MessagesOf(ThreatStages);
    ThreatMessagesDistinct();
    SubsequenceNoDuplicates(ThreatsOf(input), MessagesOf(ThreatStages));
  }

  /** The input is called safe exactly when none of the threat stages fires. */
  lemma SafeIffNoThreatFires(input: string)
    ensures ThreatsOf(input) == [] <==>
      forall i :: 0 <= i < |ThreatStages| ==> !Fires(ThreatStages[i].check, input)
  {
    if ThreatsOf(input) != [] {
      ReportedCharacterised(ThreatStages, input, |ThreatStages|, ThreatsOf(input)[0]);
    } else {
      forall i | 0 <= i < |ThreatStages| ensures !Fires(ThreatStages[i].check, input) {
        ReportedCharacterised(ThreatStages, input, |ThreatStages|, ThreatStages[i].message);
      }
    }
  }

  /** The length threat is reported exactly for inputs longer than 10000 characters. */
  lemma TooLongIffOverLimit(input: string)
    ensures "Input too long (potential DoS)" in ThreatsOf(input) <==> |input| > MaxInputLength
  {
    var m := "Input too long (potential DoS)";
    ReportedCharacterised(ThreatStages, input, |ThreatStages|, m);
    ThreatMessagesDistinct();
    assert MessagesOf(ThreatStages)[8] == m;
    if m in ThreatsOf(input) {
      var i :| 0 <= i < |ThreatStages| && ThreatStages[i].message == m && Fires(ThreatStages[i].check, input);
      assert MessagesOf(ThreatStages)[i] == m;
      assert i == 8;
    }
  }

  /** A warning is reported exactly when its pattern occurs in the input. */
  lemma WarningsCharacterised(input: string, m: string)
    ensures m in WarningsOf(input) <==>
      exists i :: 0 <= i < |WarningStages| && WarningStages[i].message == m
        && Matches(WarningStages[i].check.pattern, input)
  {
    ReportedCharacterised(WarningStages, input, |WarningStages|, m);
  }

  lemma {:induction false} SanitizedShrinks(stages: seq<Stage>, input: string, j: nat, k: nat)
    requires j <= k <= |stages|
    ensures IsSubsequence(Sanitized(stages, input, k), Sanitized(stages, input, j))
    decreases k - j
  {
    if j == k {
      SubsequenceRefl(Sanitized(stages, input, k));
    } else {
      SanitizedShrinks(stages, input, j, k - 1);
      var prev := Sanitized(stages, input, k - 1);
      if Fires(stages[k - 1].check, input) {
        StripIsSubsequence(stages[k - 1].check, prev);
      } else {
        SubsequenceRefl(prev);
      }
      SubsequenceTrans(Sanitized(stages, input, k), Sanitized(stages, input, k - 1),
        Sanitized(stages, input, j));
    }
  }

  /** The sanitized text is the input with characters deleted: sanitization never inserts or
      reorders anything. */
  lemma SanitizedIsSubsequence(input: string)
    ensures IsSubsequence(Trim(Sanitize(input)), input)
  {
    SanitizedShrinks(ThreatStages, input, 0, |ThreatStages|);
    TrimIsSubsequence(Sanitize(input));
    SubsequenceTrans(Trim(Sanitize(input)), Sanitize(input), input);
  }

  /** After the command stage a character class is gone when the stage strips it. */
  lemma ClassGoneAfterStage(input: string, i: nat, pat: Pattern)
    requires i < |ThreatStages| && ThreatStages[i].check == Detect(pat) && IsCharClass(pat)
    ensures forall k :: 0 <= k < |Sanitize(input)| ==> !InClass(pat, Sanitize(input)[k])
  {
    var after := Sanitized(ThreatStages, input, i + 1);
    if Matches(pat, input) {
      RemoveClears(pat, Sanitized(ThreatStages, input, i));
    } else {
      NoMatchNoClassChar(pat, input);
      SanitizedShrinks(ThreatStages, input, 0, i + 1);
      SubsequenceAvoids(after, input, c => InClass(pat, c));
    }
    SanitizedShrinks(ThreatStages, input, i + 1, |ThreatStages|);
    SubsequenceAvoids(Sanitize(input), after, c => InClass(pat, c));
  }

  /** The sanitized text holds no command-injection character and no control character
      (so no null byte either). */
  lemma SanitizedHasNoCommandOrControlChars(input: string)
    ensures var r := Trim(Sanitize(input));
      forall k :: 0 <= k < |r| ==> !IsCommandChar(r[k]) && !IsControlChar(r[k])
  {
    ClassGoneAfterStage(input, 4, CommandInjection);
    ClassGoneAfterStage(input, 10, ControlChars);
    TrimIsSubsequence(Sanitize(input));
    SubsequenceAvoids(Trim(Sanitize(input)), Sanitize(input),
      c => InClass(CommandInjection, c) || InClass(ControlChars, c));
  }

  /** Input on which no threat stage fires is only trimmed. */
  lemma {:induction false} CleanInputPassesThrough(input: string, k: nat)
    requires k <= |ThreatStages|
    requires forall i :: 0 <= i < k ==> !Fires(ThreatStages[i].check, input)
    ensures Reported(ThreatStages, input, k) == [] && Sanitized(ThreatStages, input, k) == input
  {
    if k > 0 {
      CleanInputPassesThrough(input, k - 1);
    }
  }

  // ---------------------------------------------------------------------------
  // shouldRateLimitByThreats
  // ---------------------------------------------------------------------------

  predicate IsHighRisk(threat: string)
  {
    Contains(threat, "injection") || Contains(threat, "script") || Contains(threat, "command")
  }

  function HighRiskThreats(threats: seq<string>): (r: seq<string>)
    ensures |r| <= |threats|
    ensures forall k :: 0 <= k < |r| ==> IsHighRisk(r[k])
  {
    if threats == [] then []
    else if IsHighRisk(threats[0]) then [threats[0]] + HighRiskThreats(threats[1..])
    else HighRiskThreats(threats[1..])
  }

  /** `shouldRateLimitByThreats`: at least two high-risk threats. */
  function ShouldRateLimitByThreats(threats: seq<string>): bool
  {
    |HighRiskThreats(threats)| >= 2
  }

  lemma {:induction false} HighRiskNonEmpty(threats: seq<string>)
    ensures |HighRiskThreats(threats)| >= 1 <==> exists i :: 0 <= i < |threats| && IsHighRisk(threats[i])
  {
    if threats != [] {
      HighRiskNonEmpty(threats[1..]);
      if exists i :: 0 <= i < |threats| && IsHighRisk(threats[i]) {
        var i :| 0 <= i < |threats| && IsHighRisk(threats[i]);
        if i > 0 {
          assert threats[1..][i - 1] == threats[i];
        }
      }
      if exists i :: 0 <= i < |threats[1..]| && IsHighRisk(threats[1..][i]) {
        var i :| 0 <= i < |threats[1..]| && IsHighRisk(threats[1..][i]);
        assert threats[i + 1] == threats[1..][i];
      }
    }
  }

  /** Rate limiting by threats happens exactly when two different entries of the list are
      high-risk. */
  lemma {:induction false} ShouldRateLimitIffTwoHighRisk(threats: seq<string>)
    ensures ShouldRateLimitByThreats(threats) <==>
      exists i, j :: 0 <= i < j < |threats| && IsHighRisk(threats[i]) && IsHighRisk(threats[j])
  {
    if threats != [] {
      var tail := threats[1..];
      ShouldRateLimitIffTwoHighRisk(tail);
      HighRiskNonEmpty(tail);
      if exists i, j :: 0 <= i < j < |threats| && IsHighRisk(threats[i]) && IsHighRisk(threats[j]) {
        var i, j :| 0 <= i < j < |threats| && IsHighRisk(threats[i]) && IsHighRisk(threats[j]);
        assert tail[j - 1] == threats[j];
        if i > 0 {
          assert tail[i - 1] == threats[i];
        }
      }
      if ShouldRateLimitByThreats(threats) {
        if IsHighRisk(threats[0]) {
          var j :| 0 <= j < |tail| && IsHighRisk(tail[j]);
          assert threats[j + 1] == tail[j];
        } else {
          var i, j :| 0 <= i < j < |tail| && IsHighRisk(tail[i]) && IsHighRisk(tail[j]);
          assert threats[i + 1] == tail[i] && threats[j + 1] == tail[j];
        }
      }
    }
  }
}
