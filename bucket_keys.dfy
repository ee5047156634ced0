/** Bucket keys: the name of the store key a message is written to is the
    queue prefix, a tag for the structure kind, and the current time
    rendered with a fixed-width format (RedisQueueService.cs:23-26, 119-120).
    The search pattern of a drain is the same text with every date field
    replaced by a wildcard (RedisQueueService.cs:150-155), and the key scan
    appends one more wildcard (RedisQueueService.cs:377). */
module BucketKeys {
  import opened Ordering

  /** The fields of the wall clock (DateTime.Now) that a key is built from. */
  datatype Time = Time(year: nat, month: nat, day: nat, hour: nat, minute: nat)

  /** The ranges a DateTime value keeps its fields in. */
  predicate ValidTime(t: Time)
  {
    1 <= t.year <= 9999 && 1 <= t.month <= 12 && 1 <= t.day <= 31 && t.hour < 24 && t.minute < 60
  }

  /** The time unit of a bucket (KeyExpiryTimeType). */
  datatype Unit = Minutes | Hours | Days

  /** The structure kind of a bucket (RedisDataType). */
  datatype Kind = List | ZSet

  /** "_List_" and "_ZSet_" (RedisQueueService.cs:23-24). */
  function KindTag(k: Kind): string
  {
    match k
    case List => "_List_"
    case ZSet => "_ZSet_"
  }

  /** One element of a date format: a field specifier or a literal character. */
  datatype Spec = Year | Month | Day | Hour | Minute | Lit(c: char)

  type Format = seq<Spec>

  /** "yyyy-MM-dd_HH" (RedisQueueService.cs:26). */
  const HoursFormat: Format := [Year, Lit('-'), Month, Lit('-'), Day, Lit('_'), Hour]

  /** The minute and day formats: their text is not in the source; these
      two are the assumed layouts, fields most significant first. */
  const MinutesFormat: Format := HoursFormat + [Lit('_'), Minute]
  const DaysFormat: Format := [Year, Lit('-'), Month, Lit('-'), Day]

  function UnitFormat(u: Unit): Format
  {
    match u
    case Minutes => MinutesFormat
    case Hours => HoursFormat
    case Days => DaysFormat
  }

  /** The format string a format is written as in .NET custom date syntax. */
  function SpecText(s: Spec): string
  {
    match s
    case Year => "yyyy"
    case Month => "MM"
    case Day => "dd"
    case Hour => "HH"
    case Minute => "mm"
    case Lit(c) => [c]
  }

  function FormatText(f: Format): string
  {
    if f == [] then [] else SpecText(f[0]) + FormatText(f[1..])
  }

  /** Number of characters a field is printed with. */
  function Width(s: Spec): nat
  {
    match s
    case Year => 4
    case Lit(_) => 1
    case _ => 2
  }

  function FieldValue(s: Spec, t: Time): nat
  {
    match s
    case Year => t.year
    case Month => t.month
    case Day => t.day
    case Hour => t.hour
    case Minute => t.minute
    case Lit(_) => 0
  }

  function Pow10(w: nat): nat
  {
    if w == 0 then 1 else 10 * Pow10(w - 1)
  }

  function DigitChar(d: nat): char
    requires d < 10
  {
    ('0' as int + d) as char
  }

  /** n printed with exactly w decimal digits, zero-padded on the left. */
  function Digits(n: nat, w: nat): (r: string)
    ensures |r| == w
    ensures forall i :: 0 <= i < |r| ==> '0' <= r[i] <= '9'
  {
    if w == 0 then [] else Digits(n / 10, w - 1) + [DigitChar(n % 10)]
  }

  function RenderSpec(s: Spec, t: Time): (r: string)
    ensures |r| == Width(s)
  {
    if s.Lit? then [s.c] else Digits(FieldValue(s, t), Width(s))
  }

  /** DateTime.ToString(format) for the formats above. */
  function Render(f: Format, t: Time): string
  {
    if f == [] then [] else RenderSpec(f[0], t) + Render(f[1..], t)
  }

  /** The format with every field replaced by one wildcard. */
  function Mask(f: Format): string
  {
    if f == [] then [] else (if f[0].Lit? then [f[0].c] else "*") + Mask(f[1..])
  }

  /** The key of the bucket that is current at time t. */
  function Key(u: Unit, k: Kind, prefix: string, t: Time): string
  {
    prefix + KindTag(k) + Render(UnitFormat(u), t)
  }

  /** The pattern a drain searches with (before the scan's extra wildcard). */
  function Pattern(u: Unit, k: Kind, prefix: string): string
  {
    prefix + KindTag(k) + Mask(UnitFormat(u))
  }

  /** The glob handed to the key scan: the pattern and a trailing '*'. */
  function Glob(pattern: string): string
  {
    pattern + "*"
  }

  /** Seconds in one unit (TimeSpan.FromMinutes / FromHours / FromDays). */
  function UnitSeconds(u: Unit): nat
  {
    match u
    case Minutes => 60
    case Hours => 3600
    case Days => 86400
  }

  /** The key expiry of a bucket: the multiplier times the unit. */
  function ExpirySeconds(u: Unit, times: int): int
  {
    times * UnitSeconds(u)
  }

  /** TimeSpan.MaxValue.Ticks, and ticks in a second. */
  const MaxTimeSpanTicks: int := 0x7FFF_FFFF_FFFF_FFFF
  const TicksPerSecond: int := 10_000_000

  /** TimeSpan.FromMinutes / FromHours / FromDays of the multiplier stays
      within TimeSpan's range; otherwise it throws OverflowException. */
  predicate ExpiryFits(u: Unit, times: int)
  {
    ExpirySeconds(u, times) * TicksPerSecond <= MaxTimeSpanTicks
  }

  /** The largest multipliers TimeSpan accepts: 256,204,778 hours and
      10,675,199 days; every 32-bit number of minutes fits. */
  lemma ExpiryLimits(times: int)
    requires times > 1
    ensures ExpiryFits(Hours, times) <==> times <= 256_204_778
    ensures ExpiryFits(Days, times) <==> times <= 10_675_199
    ensures times <= 0x7FFF_FFFF ==> ExpiryFits(Minutes, times)
  {
    if times > 256_204_778 {
      assert ExpirySeconds(Hours, times) >= 256_204_779 * 3600;
    }
    if times > 10_675_199 {
      assert ExpirySeconds(Days, times) >= 10_675_200 * 86400;
    }
  }

  // ---------------------------------------------------------------------
  // Glob matching, '*' only (any other character matches itself)

  predicate Match(p: string, s: string)
    decreases |p| + |s|
  {
    if p == [] then s == []
    else if p[0] == '*' then Match(p[1..], s) || (s != [] && Match(p, s[1..]))
    else s != [] && s[0] == p[0] && Match(p[1..], s[1..])
  }

  /** Matching is compositional. */
  lemma {:induction false} MatchConcat(p1: string, s1: string, p2: string, s2: string)
    requires Match(p1, s1) && Match(p2, s2)
    ensures Match(p1 + p2, s1 + s2)
    decreases |p1| + |s1|
  {
    if p1 == [] {
      assert p1 + p2 == p2 && s1 + s2 == s2;
    } else if p1[0] == '*' {
      assert (p1 + p2)[0] == '*' && (p1 + p2)[1..] == p1[1..] + p2;
      if Match(p1[1..], s1) {
        MatchConcat(p1[1..], s1, p2, s2);
      } else {
        MatchConcat(p1, s1[1..], p2, s2);
        assert (s1 + s2)[1..] == s1[1..] + s2;
      }
    } else {
      assert (p1 + p2)[0] == p1[0] && (p1 + p2)[1..] == p1[1..] + p2;
      assert (s1 + s2)[0] == s1[0] && (s1 + s2)[1..] == s1[1..] + s2;
      MatchConcat(p1[1..], s1[1..], p2, s2);
    }
  }

  /** Every text matches itself as a pattern (a '*' matches the one '*'). */
  lemma {:induction false} MatchSelf(s: string)
    ensures Match(s, s)
  {
    if s != [] {
      MatchSelf(s[1..]);
      if s[0] == '*' {
        MatchStar(s[1..]);
        assert Match([], []);
        MatchConcat("*", [s[0]], s[1..], s[1..]);
        assert "*" + s[1..] == s && [s[0]] + s[1..] == s;
      }
    }
  }

  /** A lone wildcard matches anything. */
  lemma {:induction false} MatchStar(s: string)
    ensures Match("*", s)
    decreases |s|
  {
    assert "*"[1..] == [];
    if s != [] {
      MatchStar(s[1..]);
    }
  }

  /** The mask of a format matches every rendering of it. */
  lemma {:induction false} MaskMatchesRender(f: Format, t: Time)
    ensures Match(Mask(f), Render(f, t))
  {
    if f != [] {
      MaskMatchesRender(f[1..], t);
      if f[0].Lit? {
        MatchSelf([f[0].c]);
      } else {
        MatchStar(RenderSpec(f[0], t));
      }
      MatchConcat(if f[0].Lit? then [f[0].c] else "*", RenderSpec(f[0], t), Mask(f[1..]), Render(f[1..], t));
    }
  }

  /** Every key a send builds is found by the scan of the drain for the same
      unit, kind and prefix, whatever the prefix is. */
  lemma KeyMatchesGlob(u: Unit, k: Kind, prefix: string, t: Time)
    ensures Match(Glob(Pattern(u, k, prefix)), Key(u, k, prefix, t))
  {
    var head := prefix + KindTag(k);
    MatchSelf(head);
    MaskMatchesRender(UnitFormat(u), t);
    MatchConcat(head, head, Mask(UnitFormat(u)), Render(UnitFormat(u), t));
    assert Match("*", []);
    MatchConcat(head + Mask(UnitFormat(u)), head + Render(UnitFormat(u), t), "*", []);
    assert Glob(Pattern(u, k, prefix)) == head + Mask(UnitFormat(u)) + "*";
    assert Key(u, k, prefix, t) == head + Render(UnitFormat(u), t) + [];
  }

  /** Rendering a concatenated format renders each part in turn. */
  lemma {:induction false} RenderConcat(f: Format, g: Format, t: Time)
    ensures Render(f + g, t) == Render(f, t) + Render(g, t)
  {
    if f != [] {
      assert (f + g)[0] == f[0] && (f + g)[1..] == f[1..] + g;
      RenderConcat(f[1..], g, t);
    } else {
      assert f + g == g;
    }
  }

  /** A key rendered with a longer format f + g is found by the glob of f:
      the trailing wildcard swallows the rendering of g. */
  lemma GlobFindsExtendedKey(head: string, f: Format, g: Format, t: Time)
    ensures Match(head + Mask(f) + "*", head + Render(f + g, t))
  {
    RenderConcat(f, g, t);
    MatchSelf(head);
    MaskMatchesRender(f, t);
    MatchConcat(head, head, Mask(f), Render(f, t));
    MatchStar(Render(g, t));
    MatchConcat(head + Mask(f), head + Render(f, t), "*", Render(g, t));
    assert head + Render(f + g, t) == head + Render(f, t) + Render(g, t);
  }

  /** The converse direction to MinutesScanMissesHourBuckets: with the minute
      layout above, the Hours scan also finds every minute bucket of the same
      prefix and kind. */
  lemma HoursGlobFindsMinuteKeys(k: Kind, prefix: string, t: Time)
    ensures Match(Glob(Pattern(Hours, k, prefix)), Key(Minutes, k, prefix, t))
  {
    var head := prefix + KindTag(k);
    GlobFindsExtendedKey(head, HoursFormat, [Lit('_'), Minute], t);
    assert Glob(Pattern(Hours, k, prefix)) == head + Mask(HoursFormat) + "*";
    assert UnitFormat(Minutes) == HoursFormat + [Lit('_'), Minute];
  }

  /** Number of occurrences of c. */
  function Count(s: string, c: char): nat
  {
    if s == [] then 0 else (if s[0] == c then 1 else 0) + Count(s[1..], c)
  }

  lemma {:induction false} CountConcat(a: string, b: string, c: char)
    ensures Count(a + b, c) == Count(a, c) + Count(b, c)
  {
    if a == [] {
      assert a + b == b;
    } else {
      assert (a + b)[0] == a[0] && (a + b)[1..] == a[1..] + b;
      CountConcat(a[1..], b, c);
    }
  }

  /** A literal character of the pattern is matched by the same character of
      the text, so a text that matches has at least as many of them. */
  lemma {:induction false} MatchCount(p: string, s: string, c: char)
    requires c != '*' && Match(p, s)
    ensures Count(p, c) <= Count(s, c)
    decreases |p| + |s|
  {
    if p == [] {
    } else if p[0] == '*' {
      if Match(p[1..], s) {
        MatchCount(p[1..], s, c);
      } else {
        MatchCount(p, s[1..], c);
      }
    } else {
      MatchCount(p[1..], s[1..], c);
    }
  }

  /** Rendered dates hold only digits and the format's literals. */
  lemma {:induction false} CountRender(f: Format, t: Time, c: char)
    requires !('0' <= c <= '9')
    ensures Count(Render(f, t), c) == CountLits(f, c)
  {
    if f != [] {
      CountLitsHead(f, c);
      CountRender(f[1..], t, c);
      CountConcat(RenderSpec(f[0], t), Render(f[1..], t), c);
      if !f[0].Lit? {
        DigitsCount(FieldValue(f[0], t), Width(f[0]), c);
      }
    }
  }

  lemma {:induction false} DigitsCount(n: nat, w: nat, c: char)
    requires !('0' <= c <= '9')
    ensures Count(Digits(n, w), c) == 0
  {
    if w > 0 {
      DigitsCount(n / 10, w - 1, c);
      CountConcat(Digits(n / 10, w - 1), [DigitChar(n % 10)], c);
    }
  }

  lemma {:induction false} CountMask(f: Format, c: char)
    requires c != '*'
    ensures Count(Mask(f), c) == CountLits(f, c)
  {
    if f != [] {
      CountLitsHead(f, c);
      CountMask(f[1..], c);
      CountConcat(if f[0].Lit? then [f[0].c] else "*", Mask(f[1..]), c);
    }
  }

  /** Number of literal c's in a format. */
  function CountLits(f: Format, c: char): nat
  {
    multiset(f)[Lit(c)]
  }

  lemma CountLitsHead(f: Format, c: char)
    requires f != []
    ensures CountLits(f, c) == (if f[0] == Lit(c) then 1 else 0) + CountLits(f[1..], c)
  {
    assert f == [f[0]] + f[1..];
  }

  /** Counts of a character in a glob and in a key, split into their parts. */
  lemma GlobCount(u: Unit, k: Kind, prefix: string, c: char)
    requires c != '*'
    ensures Count(Glob(Pattern(u, k, prefix)), c)
         == Count(prefix, c) + Count(KindTag(k), c) + CountLits(UnitFormat(u), c)
  {
    var head, m := prefix + KindTag(k), Mask(UnitFormat(u));
    assert Glob(Pattern(u, k, prefix)) == (head + m) + "*";
    CountConcat(prefix, KindTag(k), c);
    CountConcat(head, m, c);
    CountConcat(head + m, "*", c);
    assert Count("*", c) == 0;
    CountMask(UnitFormat(u), c);
  }

  lemma KeyCount(u: Unit, k: Kind, prefix: string, t: Time, c: char)
    requires !('0' <= c <= '9')
    ensures Count(Key(u, k, prefix, t), c)
         == Count(prefix, c) + Count(KindTag(k), c) + CountLits(UnitFormat(u), c)
  {
    CountConcat(prefix, KindTag(k), c);
    CountConcat(prefix + KindTag(k), Render(UnitFormat(u), t), c);
    CountRender(UnitFormat(u), t, c);
  }

  /** A text with fewer of some literal character than the pattern cannot
      match it. */
  lemma NoMatchByCount(p: string, s: string, c: char)
    requires c != '*' && Count(s, c) < Count(p, c)
    ensures !Match(p, s)
  {
    if Match(p, s) {
      MatchCount(p, s, c);
    }
  }

  /** The only literals of the unit formats are '-' and '_'. */
  lemma SeparatorsOnly(u: Unit, c: char)
    requires c != '-' && c != '_'
    ensures CountLits(UnitFormat(u), c) == 0
  {
    assert Lit(c) !in UnitFormat(u);
  }

  lemma TagCounts()
    ensures Count(KindTag(ZSet), 'Z') == 1 && Count(KindTag(List), 'Z') == 0
    ensures Count(KindTag(List), 'L') == 1 && Count(KindTag(ZSet), 'L') == 0
  {
  }

  /** A List key is never found by a sorted-set scan of the same prefix,
      for any prefix and any units. */
  lemma ListKeysMissZSetScan(u: Unit, v: Unit, prefix: string, t: Time)
    ensures !Match(Glob(Pattern(v, ZSet, prefix)), Key(u, List, prefix, t))
  {
    GlobCount(v, ZSet, prefix, 'Z');
    KeyCount(u, List, prefix, t, 'Z');
    TagCounts();
    SeparatorsOnly(u, 'Z');
    SeparatorsOnly(v, 'Z');
    NoMatchByCount(Glob(Pattern(v, ZSet, prefix)), Key(u, List, prefix, t), 'Z');
  }

  /** A sorted-set key is never found by a List scan of the same prefix. */
  lemma ZSetKeysMissListScan(u: Unit, v: Unit, prefix: string, t: Time)
    ensures !Match(Glob(Pattern(v, List, prefix)), Key(u, ZSet, prefix, t))
  {
    GlobCount(v, List, prefix, 'L');
    KeyCount(u, ZSet, prefix, t, 'L');
    TagCounts();
    SeparatorsOnly(u, 'L');
    SeparatorsOnly(v, 'L');
    NoMatchByCount(Glob(Pattern(v, List, prefix)), Key(u, ZSet, prefix, t), 'L');
  }

  /** With the minute layout above, the Minutes scan never finds an hour
      bucket of the same prefix and kind. */
  lemma MinutesScanMissesHourBuckets(k: Kind, prefix: string, t: Time)
    ensures !Match(Glob(Pattern(Minutes, k, prefix)), Key(Hours, k, prefix, t))
  {
    GlobCount(Minutes, k, prefix, '_');
    KeyCount(Hours, k, prefix, t, '_');
    assert CountLits(MinutesFormat, '_') == 2 && CountLits(HoursFormat, '_') == 1;
    NoMatchByCount(Glob(Pattern(Minutes, k, prefix)), Key(Hours, k, prefix, t), '_');
  }

  // ---------------------------------------------------------------------
  // The source builds the pattern by text replacement

  /** String.Replace: every non-overlapping occurrence, left to right. */
  function Replace(s: string, pat: string, rep: string): string
    requires pat != []
    decreases |s|
  {
    if |s| < |pat| then s
    else if s[..|pat|] == pat then rep + Replace(s[|pat|..], pat, rep)
    else [s[0]] + Replace(s[1..], pat, rep)
  }

  /** The replacement chain of RedisQueueService.cs:151-154. */
  function ReplaceFields(s: string): string
  {
    Replace(Replace(Replace(Replace(s, "yyyy", "*"), "MM", "*"), "dd", "*"), "HH", "*")
  }

  lemma {:induction false} ReplaceKeeps(a: string, rest: string, pat: string, rep: string)
    requires pat != [] && pat[0] !in a
    ensures Replace(a + rest, pat, rep) == a + Replace(rest, pat, rep)
  {
    if a != [] {
      var s := a + rest;
      assert s[0] == a[0] && s[1..] == a[1..] + rest;
      assert pat[0] !in a[1..] by {
        assert forall i :: 0 <= i < |a[1..]| ==> a[1..][i] == a[i + 1];
      }
      ReplaceKeeps(a[1..], rest, pat, rep);
      if |s| < |pat| {
        assert Replace(rest, pat, rep) == rest;
      } else {
        assert s[..|pat|][0] == a[0];
        assert Replace(s, pat, rep) == [a[0]] + (a[1..] + Replace(rest, pat, rep));
        assert a == [a[0]] + a[1..];
      }
    } else {
      assert a + rest == rest;
    }
  }

  lemma ReplaceHit(pat: string, rest: string, rep: string)
    requires pat != []
    ensures Replace(pat + rest, pat, rep) == rep + Replace(rest, pat, rep)
  {
    assert (pat + rest)[..|pat|] == pat && (pat + rest)[|pat|..] == rest;
  }

  /** The format with one field specifier turned into a literal '*'. */
  function Subst(f: Format, s: Spec): Format
  {
    if f == [] then [] else [if f[0] == s then Lit('*') else f[0]] + Subst(f[1..], s)
  }

  /** No literal of the format is a letter that starts a field specifier. */
  predicate PlainLits(f: Format)
  {
    forall i :: 0 <= i < |f| && f[i].Lit? ==> f[i].c !in "yMdHm"
  }

  lemma PlainLitsTail(f: Format)
    requires f != [] && PlainLits(f)
    ensures PlainLits(f[1..])
    ensures f[0].Lit? ==> f[0].c !in "yMdHm"
  {
    forall i | 0 <= i < |f[1..]| && f[1..][i].Lit? ensures f[1..][i].c !in "yMdHm" {
      assert f[1..][i] == f[i + 1];
    }
  }

  lemma {:induction false} SubstPlainLits(f: Format, s: Spec)
    requires !s.Lit? && PlainLits(f)
    ensures PlainLits(Subst(f, s))
  {
    if f != [] {
      PlainLitsTail(f);
      SubstPlainLits(f[1..], s);
      var g := Subst(f, s);
      forall i | 0 <= i < |g| && g[i].Lit? ensures g[i].c !in "yMdHm" {
        if i > 0 {
          assert g[i] == Subst(f[1..], s)[i - 1];
        }
      }
    }
  }

  lemma {:induction false} ReplaceOneField(f: Format, s: Spec)
    requires !s.Lit? && PlainLits(f)
    ensures Replace(FormatText(f), SpecText(s), "*") == FormatText(Subst(f, s))
    ensures PlainLits(Subst(f, s))
  {
    SubstPlainLits(f, s);
    if f != [] {
      PlainLitsTail(f);
      ReplaceOneField(f[1..], s);
      if f[0] == s {
        ReplaceHit(SpecText(s), FormatText(f[1..]), "*");
      } else {
        ReplaceKeeps(SpecText(f[0]), FormatText(f[1..]), SpecText(s), "*");
      }
    }
  }

  /** With the four field specifiers turned into '*', a format without a
      minute field reads as its mask. */
  lemma {:induction false} SubstAllIsMask(f: Format)
    requires Minute !in f
    ensures FormatText(Subst(Subst(Subst(Subst(f, Year), Month), Day), Hour)) == Mask(f)
  {
    if f != [] {
      assert Minute !in f[1..] by {
        assert f == [f[0]] + f[1..];
      }
      SubstAllIsMask(f[1..]);
    }
  }

  /** The source's replacement chain turns the text of every such format
      into its mask. */
  lemma ReplaceFieldsIsMask(f: Format)
    requires PlainLits(f) && Minute !in f
    ensures ReplaceFields(FormatText(f)) == Mask(f)
  {
    ReplaceOneField(f, Year);
    ReplaceOneField(Subst(f, Year), Month);
    ReplaceOneField(Subst(Subst(f, Year), Month), Day);
    ReplaceOneField(Subst(Subst(Subst(f, Year), Month), Day), Hour);
    SubstAllIsMask(f);
  }

  /** The hour format is the text "yyyy-MM-dd_HH", and the replacement chain
      turns that text into the hour mask "*-*-*_*". */
  lemma HoursPatternIsMask()
    ensures FormatText(HoursFormat) == "yyyy-MM-dd_HH"
    ensures ReplaceFields("yyyy-MM-dd_HH") == Mask(HoursFormat) == "*-*-*_*"
  {
    HoursFormatText();
    HoursMaskText();
    assert PlainLits(HoursFormat) by {
      forall i | 0 <= i < |HoursFormat| && HoursFormat[i].Lit? ensures HoursFormat[i].c !in "yMdHm" {
        assert i == 1 || i == 3 || i == 5;
      }
    }
    ReplaceFieldsIsMask(HoursFormat);
  }

  /** The synchronous drains' pattern: the prefix, the kind tag and the
      hour format's text with its fields replaced; it is the hour pattern. */
  function ReplacedHoursPattern(k: Kind, prefix: string): (r: string)
    ensures r == Pattern(Hours, k, prefix)
  {
    HoursPatternIsMask();
    prefix + KindTag(k) + ReplaceFields("yyyy-MM-dd_HH")
  }

  lemma HoursFormatText()
    ensures FormatText(HoursFormat) == "yyyy-MM-dd_HH"
  {
  }

  lemma HoursMaskText()
    ensures Mask(HoursFormat) == "*-*-*_*"
  {
  }

  // ---------------------------------------------------------------------
  // Key order is time order (the sort of the scanned keys relies on it)

  /** The values of the fields a format shows, most significant first. */
  function Fields(f: Format, t: Time): seq<nat>
  {
    if f == [] then [] else (if f[0].Lit? then [] else [FieldValue(f[0], t)]) + Fields(f[1..], t)
  }

  /** The time window a bucket is current for: the fields its unit shows. */
  function Window(u: Unit, t: Time): seq<nat>
  {
    Fields(UnitFormat(u), t)
  }

  /** Lexicographic order of field values, most significant first. */
  predicate Earlier(a: seq<nat>, b: seq<nat>)
  {
    a != [] && b != [] && (a[0] < b[0] || (a[0] == b[0] && Earlier(a[1..], b[1..])))
  }

  /** Every field of the format fits in its printed width. */
  predicate FieldsFit(f: Format, t: Time)
  {
    forall i :: 0 <= i < |f| && !f[i].Lit? ==> FieldValue(f[i], t) < Pow10(Width(f[i]))
  }

  lemma {:induction false} ConcatEq(a1: string, b1: string, a2: string, b2: string)
    requires |a1| == |a2|
    ensures a1 + b1 == a2 + b2 <==> a1 == a2 && b1 == b2
  {
    if a1 + b1 == a2 + b2 {
      assert a1 == (a1 + b1)[..|a1|] && a2 == (a2 + b2)[..|a2|];
      assert b1 == (a1 + b1)[|a1|..] && b2 == (a2 + b2)[|a2|..];
    }
  }

  lemma DigitCharOrder(x: nat, y: nat)
    requires x < 10 && y < 10
    ensures Less([DigitChar(x)], [DigitChar(y)]) <==> x < y
    ensures DigitChar(x) == DigitChar(y) <==> x == y
  {
    assert [DigitChar(x)][1..] == [] && [DigitChar(y)][1..] == [];
  }

  /** Zero-padded fixed-width numbers compare as text the way they compare
      as numbers, and print equal only when they are equal. */
  lemma {:induction false} DigitsOrder(n: nat, m: nat, w: nat)
    requires n < Pow10(w) && m < Pow10(w)
    ensures Less(Digits(n, w), Digits(m, w)) <==> n < m
    ensures Digits(n, w) == Digits(m, w) <==> n == m
  {
    if w == 0 {
      Irreflexive([]);
    } else {
      var hn, hm := Digits(n / 10, w - 1), Digits(m / 10, w - 1);
      DigitsOrder(n / 10, m / 10, w - 1);
      DigitCharOrder(n % 10, m % 10);
      ConcatOrder(hn, [DigitChar(n % 10)], hm, [DigitChar(m % 10)]);
      ConcatEq(hn, [DigitChar(n % 10)], hm, [DigitChar(m % 10)]);
      assert n == 10 * (n / 10) + n % 10 && m == 10 * (m / 10) + m % 10;
    }
  }

  lemma FieldsFitTail(f: Format, t: Time)
    requires f != [] && FieldsFit(f, t)
    ensures FieldsFit(f[1..], t)
  {
    forall i | 0 <= i < |f[1..]| && !f[1..][i].Lit?
      ensures FieldValue(f[1..][i], t) < Pow10(Width(f[1..][i]))
    {
      assert f[1..][i] == f[i + 1];
    }
  }

  /** A rendering compares as text the way its fields compare as numbers. */
  lemma {:induction false} RenderOrder(f: Format, t1: Time, t2: Time)
    requires FieldsFit(f, t1) && FieldsFit(f, t2)
    ensures Less(Render(f, t1), Render(f, t2)) <==> Earlier(Fields(f, t1), Fields(f, t2))
    ensures Render(f, t1) == Render(f, t2) <==> Fields(f, t1) == Fields(f, t2)
  {
    if f == [] {
      Irreflexive([]);
    } else {
      FieldsFitTail(f, t1);
      FieldsFitTail(f, t2);
      RenderOrder(f[1..], t1, t2);
      var a1, a2 := RenderSpec(f[0], t1), RenderSpec(f[0], t2);
      ConcatOrder(a1, Render(f[1..], t1), a2, Render(f[1..], t2));
      ConcatEq(a1, Render(f[1..], t1), a2, Render(f[1..], t2));
      if f[0].Lit? {
        assert a1 == a2 == [f[0].c];
        assert Fields(f, t1) == Fields(f[1..], t1) && Fields(f, t2) == Fields(f[1..], t2);
        Irreflexive(a1);
      } else {
        DigitsOrder(FieldValue(f[0], t1), FieldValue(f[0], t2), Width(f[0]));
        var v1, v2 := FieldValue(f[0], t1), FieldValue(f[0], t2);
        assert Fields(f, t1) == [v1] + Fields(f[1..], t1);
        assert Fields(f, t2) == [v2] + Fields(f[1..], t2);
        assert ([v1] + Fields(f[1..], t1))[1..] == Fields(f[1..], t1);
        assert ([v2] + Fields(f[1..], t2))[1..] == Fields(f[1..], t2);
      }
    }
  }

  lemma ValidTimeFits(u: Unit, t: Time)
    requires ValidTime(t)
    ensures FieldsFit(UnitFormat(u), t)
  {
    assert Pow10(2) == 100 && Pow10(4) == 10000;
  }

  /** Keys of the same prefix, kind and unit sort in the order of their time
      windows: the ascending key sort of a drain visits the oldest bucket
      first. */
  lemma KeyOrderIsChronological(u: Unit, k: Kind, prefix: string, t1: Time, t2: Time)
    requires ValidTime(t1) && ValidTime(t2)
    ensures Less(Key(u, k, prefix, t1), Key(u, k, prefix, t2)) <==> Earlier(Window(u, t1), Window(u, t2))
  {
    ValidTimeFits(u, t1);
    ValidTimeFits(u, t2);
    RenderOrder(UnitFormat(u), t1, t2);
    CommonPrefixOrder(prefix + KindTag(k), Render(UnitFormat(u), t1), Render(UnitFormat(u), t2));
  }

  /** Two sends build the same key exactly when they fall in the same window. */
  lemma KeyIdentifiesWindow(u: Unit, k: Kind, prefix: string, t1: Time, t2: Time)
    requires ValidTime(t1) && ValidTime(t2)
    ensures Key(u, k, prefix, t1) == Key(u, k, prefix, t2) <==> Window(u, t1) == Window(u, t2)
  {
    ValidTimeFits(u, t1);
    ValidTimeFits(u, t2);
    RenderOrder(UnitFormat(u), t1, t2);
    var h := prefix + KindTag(k);
    ConcatEq(h, Render(UnitFormat(u), t1), h, Render(UnitFormat(u), t2));
  }

  /** The hour window is the date and the hour. */
  lemma FieldsStep(f: Format, i: nat, t: Time)
    requires i < |f|
    ensures Fields(f[i..], t) == (if f[i].Lit? then [] else [FieldValue(f[i], t)]) + Fields(f[i + 1..], t)
  {
    assert f[i..][0] == f[i] && f[i..][1..] == f[i + 1..];
  }

  lemma HoursWindow(t: Time)
    ensures Window(Hours, t) == [t.year, t.month, t.day, t.hour]
  {
    var f := HoursFormat;
    assert f[7..] == [] && f[0..] == f;
    FieldsStep(f, 6, t);
    assert Fields(f[6..], t) == [t.hour];
    FieldsStep(f, 5, t);
    FieldsStep(f, 4, t);
    assert Fields(f[4..], t) == [t.day, t.hour];
    FieldsStep(f, 3, t);
    FieldsStep(f, 2, t);
    assert Fields(f[2..], t) == [t.month, t.day, t.hour];
    FieldsStep(f, 1, t);
    FieldsStep(f, 0, t);
  }
}
