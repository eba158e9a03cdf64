/**
 * Configuration (src/config.ts): the normaliser behind boolean settings such
 * as ENABLE_ACCOUNT_RECHECK, and the configuration values the scheduler reads.
 */
module Config {
  import opened Wrappers

  /** A raw configuration value, before validation. */
  datatype RawValue =
    | Absent
    | BoolValue(b: bool)
    | NumberValue(n: real)
    | StringValue(s: string)
    | OtherValue

  /** The configuration the scheduler core reads, already validated. */
  datatype AppConfig = AppConfig(
    jobListPageSize: int,
    checkLeadTimeMinutes: int,
    createUserNameKeywords: seq<string>,
    companyShortName: string,
    enableAccountRecheck: bool)

  /** The characters JavaScript's `trim` removes: white space and line terminators. */
  predicate IsWhiteSpace(c: char) {
    || c == '\t' || c == '\n' || c == '\U{B}' || c == '\U{C}' || c == '\r' || c == ' '
    || c == '\U{A0}' || c == '\U{1680}' || ('\U{2000}' <= c <= '\U{200A}')
    || c == '\U{2028}' || c == '\U{2029}' || c == '\U{202F}' || c == '\U{205F}'
    || c == '\U{3000}' || c == '\U{FEFF}'
  }

  predicate AllWhiteSpace(s: string) {
    forall i :: 0 <= i < |s| ==> IsWhiteSpace(s[i])
  }

  function TrimStart(s: string): (r: string)
    ensures |r| <= |s|
  {
    if |s| > 0 && IsWhiteSpace(s[0]) then TrimStart(s[1..]) else s
  }

  function TrimEnd(s: string): (r: string)
    ensures |r| <= |s|
  {
    if |s| > 0 && IsWhiteSpace(s[|s| - 1]) then TrimEnd(s[..|s| - 1]) else s
  }

  function Trim(s: string): string {
    TrimEnd(TrimStart(s))
  }

  /** Lower-casing of one character: the letters A to Z become a to z. */
  function LowerChar(c: char): char {
    if 'A' <= c <= 'Z' then (c as int + 32) as char else c
  }

  /** Lower-casing of the letters A to Z; no other character lower-cases into one of the accepted words. */
  function LowerAscii(s: string): (r: string)
    ensures |r| == |s|
  {
    if |s| == 0 then [] else [LowerChar(s[0])] + LowerAscii(s[1..])
  }

  function Normalize(s: string): string {
    LowerAscii(Trim(s))
  }

  predicate IsTrueWord(w: string) {
    w == "1" || w == "true" || w == "yes" || w == "y"
  }

  predicate IsFalseWord(w: string) {
    w == "0" || w == "false" || w == "no" || w == "n"
  }

  /**
   * The boolean setting schema: an absent value defaults to true, booleans
   * pass through, numbers are true exactly when they equal 1, strings are
   * trimmed and lower-cased and must then be one of eight words; anything else
   * fails validation (`None`).
   */
  function ParseBoolSetting(v: RawValue): (r: Option<bool>)
    ensures v.Absent? ==> r == Some(true)
    ensures v.BoolValue? ==> r == Some(v.b)
    ensures v.NumberValue? ==> r.Some? && (r.value <==> v.n == 1.0)
    ensures v.StringValue? ==> (r == Some(true) <==> IsTrueWord(Normalize(v.s)))
    ensures v.StringValue? ==> (r == Some(false) <==> IsFalseWord(Normalize(v.s)))
    ensures v.OtherValue? ==> r == None
  {
    match v
    case Absent => Some(true)
    case BoolValue(b) => Some(b)
    case NumberValue(n) => Some(n == 1.0)
    case StringValue(s) =>
      var w := Normalize(s);
      if IsTrueWord(w) then Some(true)
      else if IsFalseWord(w) then Some(false)
      else None
    case OtherValue => None
  }

  lemma {:induction false} TrimStartSkipsPrefix(pre: string, s: string)
    requires AllWhiteSpace(pre)
    ensures TrimStart(pre + s) == TrimStart(s)
    decreases |pre|
  {
    if |pre| > 0 {
      var rest := pre[1..];
      assert AllWhiteSpace(rest) by {
        forall i | 0 <= i < |rest| ensures IsWhiteSpace(rest[i]) {
          assert rest[i] == pre[i + 1];
        }
      }
      var t := pre + s;
      assert IsWhiteSpace(t[0]) && t[1..] == rest + s;
      calc {
        TrimStart(t);
        TrimStart(t[1..]);
        TrimStart(rest + s);
        { TrimStartSkipsPrefix(rest, s); }
        TrimStart(s);
      }
    } else {
      assert pre + s == s;
    }
  }

  lemma {:induction false} TrimEndSkipsSuffix(s: string, post: string)
    requires AllWhiteSpace(post)
    ensures TrimEnd(s + post) == TrimEnd(s)
    decreases |post|
  {
    if |post| > 0 {
      var init := post[..|post| - 1];
      assert AllWhiteSpace(init) by {
        forall i | 0 <= i < |init| ensures IsWhiteSpace(init[i]) {
          assert init[i] == post[i];
        }
      }
      var t := s + post;
      assert IsWhiteSpace(t[|t| - 1]) && t[..|t| - 1] == s + init;
      calc {
        TrimEnd(t);
        TrimEnd(t[..|t| - 1]);
        TrimEnd(s + init);
        { TrimEndSkipsSuffix(s, init); }
        TrimEnd(s);
      }
    } else {
      assert s + post == s;
    }
  }

  /** Trimming the start of a string does not touch its end. */
  lemma {:induction false} TrimStartKeepsSuffix(s: string, post: string)
    requires AllWhiteSpace(post)
    ensures TrimStart(s + post) == TrimStart(s) + post || (AllWhiteSpace(s) && TrimStart(s + post) == [])
    decreases |s|
  {
    if |s| == 0 {
      assert s + post == post;
      TrimStartSkipsPrefix(post, []);
      assert post + [] == post;
    } else if IsWhiteSpace(s[0]) {
      assert (s + post)[1..] == s[1..] + post;
      TrimStartKeepsSuffix(s[1..], post);
    }
  }

  lemma {:induction false} TrimStartOfWhiteSpace(s: string)
    requires AllWhiteSpace(s)
    ensures TrimStart(s) == []
    decreases |s|
  {
    if |s| > 0 {
      TrimStartOfWhiteSpace(s[1..]);
    }
  }

  /** White space around a value never changes what it means. */
  lemma {:induction false} ParseBoolIgnoresPadding(pre: string, s: string, post: string)
    requires AllWhiteSpace(pre) && AllWhiteSpace(post)
    ensures ParseBoolSetting(StringValue(pre + s + post)) == ParseBoolSetting(StringValue(s))
  {
    assert pre + s + post == pre + (s + post);
    TrimStartSkipsPrefix(pre, s + post);
    TrimStartKeepsSuffix(s, post);
    if TrimStart(s + post) == TrimStart(s) + post {
      TrimEndSkipsSuffix(TrimStart(s), post);
    } else {
      TrimStartOfWhiteSpace(s);
    }
    assert Trim(pre + s + post) == Trim(s);
  }

  /** Lower-casing is idempotent. */
  lemma {:induction false} LowerAsciiIdempotent(s: string)
    ensures LowerAscii(LowerAscii(s)) == LowerAscii(s)
    decreases |s|
  {
    if |s| > 0 {
      assert LowerAscii(s)[1..] == LowerAscii(s[1..]);
      LowerAsciiIdempotent(s[1..]);
    }
  }

  /** Lower-casing works character by character. */
  lemma {:induction false} LowerAsciiAt(s: string, i: nat)
    requires i < |s|
    ensures LowerAscii(s)[i] == LowerChar(s[i])
    decreases |s|
  {
    if i > 0 {
      LowerAsciiAt(s[1..], i - 1);
    }
  }

  /** Lower-casing a prefix or a suffix is taking that part of the lower-cased text. */
  lemma {:induction false} LowerAsciiSlices(s: string, n: nat)
    requires n <= |s|
    ensures LowerAscii(s[..n]) == LowerAscii(s)[..n]
    ensures LowerAscii(s[n..]) == LowerAscii(s)[n..]
  {
    forall i | 0 <= i < n ensures LowerAscii(s[..n])[i] == LowerAscii(s)[i] {
      LowerAsciiAt(s[..n], i);
      LowerAsciiAt(s, i);
    }
    forall i | 0 <= i < |s| - n ensures LowerAscii(s[n..])[i] == LowerAscii(s)[n + i] {
      LowerAsciiAt(s[n..], i);
      LowerAsciiAt(s, n + i);
    }
  }

  /** Trimming and lower-casing commute: no white space is a letter A to Z or becomes one. */
  lemma {:induction false} TrimLowerCommute(s: string)
    ensures TrimStart(LowerAscii(s)) == LowerAscii(TrimStart(s))
    ensures TrimEnd(LowerAscii(s)) == LowerAscii(TrimEnd(s))
    decreases |s|
  {
    if |s| > 0 {
      LowerAsciiAt(s, 0);
      LowerAsciiAt(s, |s| - 1);
      LowerAsciiSlices(s, 1);
      LowerAsciiSlices(s, |s| - 1);
      TrimLowerCommute(s[1..]);
      TrimLowerCommute(s[..|s| - 1]);
    }
  }

  /** Upper- and lower-case spellings of a string setting mean the same. */
  lemma ParseBoolIgnoresCase(s: string)
    ensures ParseBoolSetting(StringValue(s)) == ParseBoolSetting(StringValue(LowerAscii(s)))
  {
    TrimLowerCommute(s);
    TrimLowerCommute(TrimStart(s));
    LowerAsciiIdempotent(Trim(s));
  }

  /** `" Yes "` is accepted as true and `"No"` as false; `""` is refused. */
  lemma ParseBoolExamples()
    ensures ParseBoolSetting(StringValue(" Yes ")) == Some(true)
    ensures ParseBoolSetting(StringValue("No")) == Some(false)
    ensures ParseBoolSetting(StringValue("")) == None
  {
    var padded := " Yes ";
    assert padded[1..] == "Yes ";
    assert TrimStart(padded) == "Yes ";
    assert "Yes "[..3] == "Yes";
    assert TrimEnd("Yes ") == "Yes";
    assert "Yes"[1..] == "es" && "es"[1..] == "s" && "s"[1..] == "";
    assert LowerAscii("Yes") == "yes";
    assert "No"[1..] == "o" && "o"[1..] == "";
    assert TrimStart("No") == "No" && TrimEnd("No") == "No";
    assert LowerAscii("No") == "no";
  }
}
