/** `processUserInput` of src/lib/processUserInput.ts: trims the text, drops a greeting line
    and a trailing sign-off, squeezes runs of line breaks and of blanks, and cuts the result
    to 1000 characters plus an ellipsis. Every step is a `String.prototype.replace` with a
    regular expression; each is modelled by a function with the expression's own semantics
    (first match for the non-global ones, every maximal run for the global ones). */
module ProcessInput {
  import opened Strings
  import opened Types

  /** `MAX_CHARS`. */
  const MaxChars: nat := 1000

  // ---------------------------------------------------------------------------
  // /^(hi|hello|dear)[^\n]*\n/i
  // ---------------------------------------------------------------------------

  /** The text opens with one of the greeting words, in any ASCII case. */
  predicate StartsWithGreeting(s: string)
  {
    HasAtIgnoringCase(s, 0, "hi") || HasAtIgnoringCase(s, 0, "hello") || HasAtIgnoringCase(s, 0, "dear")
  }

  /** Removing the greeting line: when the text opens with a greeting word and has a line
      break, everything up to and including the first line break goes; otherwise nothing. */
  function StripGreeting(s: string): (r: string)
    ensures |r| <= |s| && r == s[|s| - |r|..]
    ensures r != s <==> StartsWithGreeting(s) && '\n' in s
    ensures r != s ==> s[|s| - |r| - 1] == '\n' && '\n' !in s[..|s| - |r| - 1]
  {
    if StartsWithGreeting(s) then
      match IndexOf(s, '\n', 0)
      case Some(i) =>
        assert s[..i] == s[..|s| - |s[i + 1..]| - 1];
        s[i + 1..]
      case None => s
    else s
  }

  // ---------------------------------------------------------------------------
  // /(best regards|sincerely|cheers)[^\n]*$/i
  // ---------------------------------------------------------------------------

  /** One of the sign-off phrases starts at `p`, in any ASCII case. */
  predicate SignOffAt(s: string, p: nat)
  {
    HasAtIgnoringCase(s, p, "best regards") || HasAtIgnoringCase(s, p, "sincerely")
    || HasAtIgnoringCase(s, p, "cheers")
  }

  /** The expression matches at `p`: a sign-off phrase starts there and no line break
      follows it (`$` without the multi-line flag is the end of the text). */
  predicate SignOffMatchAt(s: string, p: nat)
  {
    p <= |s| && SignOffAt(s, p) && '\n' !in s[p..]
  }

  /** The leftmost match at or after `from`. */
  function FindSignOff(s: string, from: nat): (r: Option<nat>)
    ensures r.Some? ==> (from <= r.value < |s| && SignOffMatchAt(s, r.value)
      && forall q :: from <= q < r.value ==> !SignOffMatchAt(s, q))
    ensures r.None? ==> forall q :: from <= q ==> !SignOffMatchAt(s, q)
    decreases |s| + 1 - from
  {
    if from > |s| then None
    else if SignOffMatchAt(s, from) then Some(from)
    else FindSignOff(s, from + 1)
  }

  /** Removing the sign-off: the text is cut at the leftmost match, or kept whole when there
      is none. */
  function StripSignOff(s: string): (r: string)
    ensures r <= s
    ensures r == s <==> forall q :: !SignOffMatchAt(s, q)
    ensures r != s ==> SignOffMatchAt(s, |r|) && forall q: nat :: q < |r| ==> !SignOffMatchAt(s, q)
  {
    match FindSignOff(s, 0)
    case Some(p) => s[..p]
    case None => s
  }

  /** What occurs in a prefix occurs at the same place in the whole. */
  lemma MatchInPrefix(r: string, s: string, q: nat, lit: string)
    requires r <= s
    ensures HasAtIgnoringCase(r, q, lit) ==> HasAtIgnoringCase(s, q, lit)
  {
    if HasAtIgnoringCase(r, q, lit) {
      assert r[q..q + |lit|] == s[q..q + |lit|];
    }
  }

  /** A match inside the cut text would have been a match of the whole text further left. */
  lemma StripSignOffIdempotent(s: string)
    ensures StripSignOff(StripSignOff(s)) == StripSignOff(s)
  {
    var r := StripSignOff(s);
    if r != s {
      forall q: nat ensures !SignOffMatchAt(r, q) {
        if SignOffMatchAt(r, q) {
          assert s[q..] == r[q..] + s[|r|..];
          assert r[q..|r|] == s[q..|r|];
          assert SignOffAt(s, q) by {
            MatchInPrefix(r, s, q, "best regards");
            MatchInPrefix(r, s, q, "sincerely");
            MatchInPrefix(r, s, q, "cheers");
          }
          assert SignOffMatchAt(s, q);
          assert false;
        }
      }
    }
  }

  // ---------------------------------------------------------------------------
  // /\n{2,}/g -> "\n" and /[ \t]{2,}/g -> " "
  // ---------------------------------------------------------------------------

  /** No two neighbouring characters both belong to `cls`. */
  predicate NoAdjacent(s: string, cls: set<char>)
  {
    forall i :: 0 <= i < |s| - 1 ==> !(s[i] in cls && s[i + 1] in cls)
  }

  /** Every run of two or more characters of `cls` replaced by `rep`, scanning left to right
      as a global replacement does. */
  function CollapseRuns(s: string, cls: set<char>, rep: char): (r: string)
    requires rep in cls
    ensures |r| <= |s|
    decreases |s|
  {
    if |s| < 2 then s
    else if s[0] in cls && s[1] in cls then CollapseRuns([rep] + s[2..], cls, rep)
    else [s[0]] + CollapseRuns(s[1..], cls, rep)
  }

  /** The collapsed text starts with a character of `cls` exactly when the text does, and
      with the same character when that is outside `cls`. */
  lemma {:induction false} CollapseFirst(s: string, cls: set<char>, rep: char)
    requires rep in cls
    ensures var r := CollapseRuns(s, cls, rep);
      (|r| == 0 <==> |s| == 0)
      && (|s| > 0 ==> (r[0] in cls <==> s[0] in cls) && (s[0] !in cls ==> r[0] == s[0]))
    decreases |s|
  {
    if |s| >= 2 && s[0] in cls && s[1] in cls {
      CollapseFirst([rep] + s[2..], cls, rep);
    }
  }

  /** A run made only of characters of `cls` becomes `rep` when it is two or more long, and
      stays as it is otherwise. */
  lemma {:induction false} RunCollapses(s: string, cls: set<char>, rep: char)
    requires rep in cls
    requires forall k :: 0 <= k < |s| ==> s[k] in cls
    ensures CollapseRuns(s, cls, rep) == if |s| >= 2 then [rep] else s
    decreases |s|
  {
    if |s| >= 2 {
      var t := [rep] + s[2..];
      assert forall k :: 0 <= k < |t| ==> t[k] in cls by {
        forall k | 0 <= k < |t| ensures t[k] in cls {
          if k > 0 {
            assert t[k] == s[k + 1];
          }
        }
      }
      RunCollapses(t, cls, rep);
    }
  }

  /** A character that does not start a run is kept in front of the rest. */
  lemma CollapseCons(c: char, t: string, cls: set<char>, rep: char)
    requires rep in cls && t != [] && !(c in cls && t[0] in cls)
    ensures CollapseRuns([c] + t, cls, rep) == [c] + CollapseRuns(t, cls, rep)
  {
    assert ([c] + t)[1..] == t;
  }

  /** Two characters that start a run are merged into `rep`. */
  lemma CollapseMerge(c: char, d: char, t: string, cls: set<char>, rep: char)
    requires rep in cls && c in cls && d in cls
    ensures CollapseRuns([c, d] + t, cls, rep) == CollapseRuns([rep] + t, cls, rep)
  {
    assert ([c, d] + t)[2..] == t;
  }

  /** `CollapseIsLocal` for a given left part. */
  predicate SplitsAt(a: string, x: char, b: string, cls: set<char>, rep: char)
    requires rep in cls
  {
    CollapseRuns(a + [x] + b, cls, rep) == CollapseRuns(a, cls, rep) + [x] + CollapseRuns(b, cls, rep)
  }

  lemma SplitsAtEmpty(x: char, b: string, cls: set<char>, rep: char)
    requires rep in cls && x !in cls
    ensures SplitsAt([], x, b, cls, rep)
  {
    assert [] + [x] + b == [x] + b;
    if b != [] {
      CollapseCons(x, b, cls, rep);
    }
  }

  lemma SplitsAtMerge(a: string, x: char, b: string, cls: set<char>, rep: char)
    requires rep in cls && |a| >= 2 && a[0] in cls && a[1] in cls
    requires SplitsAt([rep] + a[2..], x, b, cls, rep)
    ensures SplitsAt(a, x, b, cls, rep)
  {
    var a' := [rep] + a[2..];
    assert CollapseRuns(a + [x] + b, cls, rep) == CollapseRuns(a' + [x] + b, cls, rep) by {
      assert a + [x] + b == [a[0], a[1]] + (a[2..] + [x] + b);
      CollapseMerge(a[0], a[1], a[2..] + [x] + b, cls, rep);
      assert [rep] + (a[2..] + [x] + b) == a' + [x] + b;
    }
    assert CollapseRuns(a, cls, rep) == CollapseRuns(a', cls, rep) by {
      assert a == [a[0], a[1]] + a[2..];
      CollapseMerge(a[0], a[1], a[2..], cls, rep);
    }
  }

  /** A first character that does not start a run is kept as it is. */
  lemma KeepsHead(s: string, cls: set<char>, rep: char)
    requires rep in cls && s != [] && !(|s| >= 2 && s[0] in cls && s[1] in cls)
    ensures CollapseRuns(s, cls, rep) == [s[0]] + CollapseRuns(s[1..], cls, rep)
  {
    if |s| < 2 {
      assert s[1..] == [];
    }
  }

  lemma SplitsAtCons(a: string, x: char, b: string, cls: set<char>, rep: char)
    requires rep in cls && x !in cls && a != [] && !(|a| >= 2 && a[0] in cls && a[1] in cls)
    requires SplitsAt(a[1..], x, b, cls, rep)
    ensures SplitsAt(a, x, b, cls, rep)
  {
    var s := a + [x] + b;
    assert s[0] == a[0] && s[1..] == a[1..] + [x] + b;
    assert |a| < 2 ==> s[1] == x;
    KeepsHead(s, cls, rep);
    KeepsHead(a, cls, rep);
  }

  /** A character outside `cls` separates the text into parts that are collapsed
      independently: no run reaches across it, and it is itself kept. */
  lemma {:induction false} CollapseIsLocal(a: string, x: char, b: string, cls: set<char>, rep: char)
    requires rep in cls && x !in cls
    ensures CollapseRuns(a + [x] + b, cls, rep) == CollapseRuns(a, cls, rep) + [x] + CollapseRuns(b, cls, rep)
    decreases |a|
  {
    if a == [] {
      SplitsAtEmpty(x, b, cls, rep);
    } else if |a| >= 2 && a[0] in cls && a[1] in cls {
      CollapseIsLocal([rep] + a[2..], x, b, cls, rep);
      SplitsAtMerge(a, x, b, cls, rep);
    } else {
      CollapseIsLocal(a[1..], x, b, cls, rep);
      SplitsAtCons(a, x, b, cls, rep);
    }
  }

  /** Afterwards no two neighbouring characters belong to `cls`. */
  lemma {:induction false} CollapsedHasNoAdjacent(s: string, cls: set<char>, rep: char)
    requires rep in cls
    ensures NoAdjacent(CollapseRuns(s, cls, rep), cls)
    decreases |s|
  {
    if |s| >= 2 {
      if s[0] in cls && s[1] in cls {
        CollapsedHasNoAdjacent([rep] + s[2..], cls, rep);
      } else {
        CollapsedHasNoAdjacent(s[1..], cls, rep);
        CollapseFirst(s[1..], cls, rep);
        var t := CollapseRuns(s[1..], cls, rep);
        assert CollapseRuns(s, cls, rep) == [s[0]] + t;
        assert s[1..][0] == s[1];
      }
    }
  }

  /** Text without neighbouring characters of `cls` is left alone, so collapsing twice is
      collapsing once. */
  lemma {:induction false} CollapseKeepsClean(s: string, cls: set<char>, rep: char)
    requires rep in cls && NoAdjacent(s, cls)
    ensures CollapseRuns(s, cls, rep) == s
    decreases |s|
  {
    if |s| >= 2 {
      assert !(s[0] in cls && s[1] in cls);
      assert NoAdjacent(s[1..], cls) by {
        forall i | 0 <= i < |s[1..]| - 1 ensures !(s[1..][i] in cls && s[1..][i + 1] in cls) {
          assert s[1..][i] == s[i + 1] && s[1..][i + 1] == s[i + 2];
        }
      }
      CollapseKeepsClean(s[1..], cls, rep);
      assert [s[0]] + s[1..] == s;
    }
  }

  /** Collapsing runs of one class keeps text free of neighbours from another class that
      `rep` does not belong to. */
  lemma {:induction false} CollapseKeepsOtherClassApart(s: string, cls: set<char>, rep: char, other: set<char>)
    requires rep in cls && cls !! other && NoAdjacent(s, other)
    ensures NoAdjacent(CollapseRuns(s, cls, rep), other)
    decreases |s|
  {
    if |s| >= 2 {
      if s[0] in cls && s[1] in cls {
        var t := [rep] + s[2..];
        assert NoAdjacent(t, other) by {
          forall i | 0 <= i < |t| - 1 ensures !(t[i] in other && t[i + 1] in other) {
            if i > 0 {
              assert t[i] == s[i + 1] && t[i + 1] == s[i + 2];
            }
          }
        }
        CollapseKeepsOtherClassApart(t, cls, rep, other);
      } else {
        assert NoAdjacent(s[1..], other) by {
          forall i | 0 <= i < |s[1..]| - 1 ensures !(s[1..][i] in other && s[1..][i + 1] in other) {
            assert s[1..][i] == s[i + 1] && s[1..][i + 1] == s[i + 2];
          }
        }
        CollapseKeepsOtherClassApart(s[1..], cls, rep, other);
        CollapseFirst(s[1..], cls, rep);
        var t := CollapseRuns(s[1..], cls, rep);
        assert CollapseRuns(s, cls, rep) == [s[0]] + t;
        assert s[1..][0] == s[1];
      }
    }
  }

  const LineBreaks: set<char> := {'\n'}
  const Blanks: set<char> := {' ', '\t'}

  // ---------------------------------------------------------------------------
  // processUserInput
  // ---------------------------------------------------------------------------

  /** The text after the four replacements, before the length limit. */
  function Clean(raw: string): string
  {
    var s := StripSignOff(StripGreeting(Trim(raw)));
    CollapseRuns(CollapseRuns(s, LineBreaks, '\n'), Blanks, ' ')
  }

  /** `processUserInput(raw)`. */
  function ProcessUserInput(raw: string): (p: ProcessedInput)
    ensures p.originalLength == |raw|
    ensures p.tooLong <==> |Clean(raw)| > MaxChars
    ensures !p.tooLong ==> p.cleaned == Clean(raw)
    ensures p.tooLong ==> (|p.cleaned| == MaxChars + 3
      && p.cleaned[..MaxChars] == Clean(raw)[..MaxChars] && p.cleaned[MaxChars..] == "...")
  {
    var cleaned := Clean(raw);
    if |cleaned| > MaxChars then ProcessedInput(cleaned[..MaxChars] + "...", true, |raw|)
    else ProcessedInput(cleaned, false, |raw|)
  }

  /** Cutting the text and appending `...` keeps neighbours of a class apart that does not
      hold `.`. */
  lemma CutKeepsApart(c: string, n: nat, cls: set<char>)
    requires n <= |c| && NoAdjacent(c, cls) && '.' !in cls
    ensures NoAdjacent(c[..n] + "...", cls)
  {
    var e := c[..n] + "...";
    forall i | 0 <= i < |e| - 1 ensures !(e[i] in cls && e[i + 1] in cls) {
      if i + 1 < n {
        assert e[i] == c[i] && e[i + 1] == c[i + 1];
      } else {
        assert e[i + 1] == '.';
      }
    }
  }

  /** The processed text never holds two line breaks in a row nor two blanks in a row, is
      at most 1003 characters long, and is no longer than the input unless it was cut. */
  lemma ProcessedTextIsTidy(raw: string)
    ensures var p := ProcessUserInput(raw);
      NoAdjacent(p.cleaned, LineBreaks) && NoAdjacent(p.cleaned, Blanks)
      && |p.cleaned| <= MaxChars + 3
      && (!p.tooLong ==> |p.cleaned| <= |raw|)
      && (p.tooLong ==> |raw| > MaxChars)
  {
    var s := StripSignOff(StripGreeting(Trim(raw)));
    var n := CollapseRuns(s, LineBreaks, '\n');
    var c := CollapseRuns(n, Blanks, ' ');
    assert c == Clean(raw);
    CollapsedHasNoAdjacent(s, LineBreaks, '\n');
    CollapseKeepsOtherClassApart(n, Blanks, ' ', LineBreaks);
    CollapsedHasNoAdjacent(n, Blanks, ' ');
    if |c| > MaxChars {
      assert ProcessUserInput(raw).cleaned == c[..MaxChars] + "...";
      CutKeepsApart(c, MaxChars, LineBreaks);
      CutKeepsApart(c, MaxChars, Blanks);
    }
  }

  /** Text that is already trimmed, has no greeting line, no sign-off, no repeated line
      breaks or blanks, and fits the limit comes back exactly as it was. */
  lemma TidyInputUnchanged(raw: string)
    requires raw != [] ==> !IsJsWhitespace(raw[0]) && !IsJsWhitespace(raw[|raw| - 1])
    requires !(StartsWithGreeting(raw) && '\n' in raw)
    requires forall q :: !SignOffMatchAt(raw, q)
    requires NoAdjacent(raw, LineBreaks) && NoAdjacent(raw, Blanks)
    requires |raw| <= MaxChars
    ensures ProcessUserInput(raw) == ProcessedInput(raw, false, |raw|)
  {
    TrimKeepsTrimmed(raw);
    CollapseKeepsClean(raw, LineBreaks, '\n');
    CollapseKeepsClean(raw, Blanks, ' ');
  }
}
