/** The per-cell functions of the GSOD record transformer: the lambdas that
    `unpack_FRSHTT`, `unpack_date_info` and `unpack_quality_flags` apply to a
    column, and the missing-value pattern of `missing_codes_to_nan`. Each
    lambda is one constructor of `CellOp`; `Apply` gives `None` where the
    lambda raises (an index past the end, or a cell that is not a string). */
module Records {
  import opened Common

  datatype CellOp =
    | EventAt(i: nat)   // `x[i]`, one FRSHTT position
    | YearPart          // `x[:4]`
    | MonthPart         // `x[4:6]`
    | DayPart           // `x[6:]`
    | JoinedDate        // `'-'.join([x[:4], x[4:6], x[6:]])`
    | StarFlag          // `1 if x[-1] == '*' else 0`
    | StripStars        // `str(x).rstrip('*')`
    | LastChar          // `x[-1]`
    | AllButLast        // `x[:-1]`

  function YearOf(x: string): string { PySlice(x, 0, 4) }
  function MonthOf(x: string): string { PySlice(x, 4, 6) }
  function DayOf(x: string): string { PySlice(x, 6, |x|) }
  function DateOf(x: string): string { YearOf(x) + "-" + MonthOf(x) + "-" + DayOf(x) }

  /** The value of a max/min temperature field without its trailing markers. */
  function Unstarred(x: string): string { RStrip(x, {'*'}) }

  /** The lambda `op` applied to one cell. Every lambda indexes or slices a
      string, so a NaN/None cell (or any non-string) raises. */
  function Apply(op: CellOp, c: Cell): Option<Cell> {
    if !c.Text? then None
    else
      var x := c.s;
      match op
      case EventAt(i) => if i < |x| then Some(Text([x[i]])) else None
      case YearPart => Some(Text(YearOf(x)))
      case MonthPart => Some(Text(MonthOf(x)))
      case DayPart => Some(Text(DayOf(x)))
      case JoinedDate => Some(Text(DateOf(x)))
      case StarFlag => if |x| == 0 then None else Some(Int(if x[|x| - 1] == '*' then 1 else 0))
      // str(x) of a non-string is never reached: the flag lambda before it raises first
      case StripStars => Some(Text(Unstarred(x)))
      case LastChar => if |x| == 0 then None else Some(Text([x[|x| - 1]]))
      case AllButLast => Some(Text(PySlice(x, 0, -1)))
  }

  /** One match of `9[.9]{3,4}9` at index `k`: a '9', then `n` characters
      each '9' or '.', then a '9'. */
  predicate MissingCodeAt(s: string, k: int, n: int) {
    0 <= k && 0 <= n && k + n + 2 <= |s| && s[k] == '9' && s[k + n + 1] == '9'
    && forall j :: k < j <= k + n ==> s[j] == '9' || s[j] == '.'
  }

  /** `re.search('9[.9]{3,4}9', s)` finds a match. */
  predicate HasMissingCode(s: string) {
    exists k :: 0 <= k < |s| && (MissingCodeAt(s, k, 3) || MissingCodeAt(s, k, 4))
  }

  /** The replacement `missing_codes_to_nan` applies to one cell: a string in
      which the pattern is found anywhere becomes NaN as a whole; other cells
      (NaN, numbers, flags) are untouched. */
  function NullIfMissing(c: Cell): Cell {
    if c.Text? && HasMissingCode(c.s) then Null else c
  }

  // ---------------------------------------------------------------------
  // Properties of the per-cell functions

  /** The slices of `yrmoda` put back together give `yrmoda`, and when it has
      the documented eight characters they are four, two and two long. */
  lemma DateParts(x: string)
    ensures YearOf(x) + MonthOf(x) + DayOf(x) == x
    ensures |x| == 8 ==> |YearOf(x)| == 4 && |MonthOf(x)| == 2 && |DayOf(x)| == 2
    ensures |x| == 8 ==> YearOf(x) == x[..4] && MonthOf(x) == x[4..6] && DayOf(x) == x[6..]
  {
    if |x| >= 6 {
      assert x == x[..4] + x[4..6] + x[6..];
    } else if |x| >= 4 {
      assert x == x[..4] + x[4..];
    }
  }

  /** Removing the hyphens from the joined date of an eight-character,
      hyphen-free `yrmoda` gives the `yrmoda` back. */
  lemma {:induction false} DateRoundTrip(x: string)
    requires |x| == 8 && '-' !in x
    ensures |DateOf(x)| == 10 && DateOf(x)[4] == '-' && DateOf(x)[7] == '-'
    ensures WithoutHyphens(DateOf(x)) == x
  {
    DateParts(x);
    var y, m, d := YearOf(x), MonthOf(x), DayOf(x);
    assert DateOf(x) == y + ("-" + (m + ("-" + d)));
    assert '-' !in y && '-' !in m && '-' !in d;
    HyphenJoin(y, m + ("-" + d));
    HyphenJoin(m, d);
    WithoutHyphensNone(d);
    assert y + (m + d) == x;
  }

  /** Dropping the hyphens of `a + "-" + b`, for a hyphen-free `a`. */
  lemma HyphenJoin(a: string, b: string)
    requires '-' !in a
    ensures WithoutHyphens(a + ("-" + b)) == a + WithoutHyphens(b)
  {
    var h := "-";
    var t := h + b;
    assert WithoutHyphens(t) == WithoutHyphens(b) by {
      assert WithoutHyphens(h) == "" by {
        assert h[1..] == "";
      }
      WithoutHyphensAppend(h, b);
    }
    assert WithoutHyphens(a + t) == a + WithoutHyphens(t) by {
      WithoutHyphensAppend(a, t);
      WithoutHyphensNone(a);
    }
  }

  function WithoutHyphens(s: string): string {
    if |s| == 0 then "" else (if s[0] == '-' then "" else [s[0]]) + WithoutHyphens(s[1..])
  }

  lemma {:induction false} WithoutHyphensAppend(a: string, b: string)
    ensures WithoutHyphens(a + b) == WithoutHyphens(a) + WithoutHyphens(b)
  {
    if |a| > 0 {
      assert (a + b)[1..] == a[1..] + b;
      WithoutHyphensAppend(a[1..], b);
    } else {
      assert a + b == b;
    }
  }

  lemma {:induction false} WithoutHyphensNone(a: string)
    requires '-' !in a
    ensures WithoutHyphens(a) == a
  {
    if |a| > 0 {
      assert '-' !in a[1..];
      WithoutHyphensNone(a[1..]);
      assert a == [a[0]] + a[1..];
    }
  }

  /** The example of the `unpack_date_info` docstring. */
  lemma DateExample()
    ensures DateOf("20020103") == "2002-01-03"
    ensures YearOf("20020103") == "2002" && MonthOf("20020103") == "01" && DayOf("20020103") == "03"
  {
  }

  /** The FRSHTT lambdas: position `i` of the code is read alone, and the six
      positions read in order spell the first six characters of the code. */
  lemma EventPositions(code: string)
    requires |code| >= 6
    ensures forall i :: 0 <= i < 6 ==> Apply(EventAt(i), Text(code)) == Some(Text([code[i]]))
    ensures Apply(EventAt(6), Text(code)).Some? <==> |code| > 6
  {
  }

  /** The quality flag is 1 exactly when the raw field ends in '*', and the
      stripped value is the raw field without every trailing '*'. */
  lemma {:induction false} StarFlagAndStrip(x: string)
    requires |x| > 0
    ensures Apply(StarFlag, Text(x)) == Some(Int(1)) <==> x[|x| - 1] == '*'
    ensures Apply(StarFlag, Text(x)) == Some(Int(0)) <==> x[|x| - 1] != '*'
    ensures exists k :: 0 <= k <= |x| && x == Unstarred(x) + StarRun(k)
    ensures |Unstarred(x)| > 0 ==> Unstarred(x)[|Unstarred(x)| - 1] != '*'
    ensures x[|x| - 1] != '*' ==> Unstarred(x) == x
  {
    var u := Unstarred(x);
    var k := |x| - |u|;
    assert x[|u|..] == StarRun(k) by {
      forall j | 0 <= j < k ensures x[|u|..][j] == '*' {
        assert x[|u| + j] in {'*'};
      }
    }
    assert x == u + x[|u|..];
  }

  /** `k` copies of '*'. */
  function StarRun(k: nat): (r: string)
    ensures |r| == k && forall j :: 0 <= j < k ==> r[j] == '*'
  {
    if k == 0 then "" else StarRun(k - 1) + "*"
  }

  /** The sample of the transformer's contract: `712*` flags and keeps `712`,
      `712` does not flag. */
  lemma StarFlagExample()
    ensures Apply(StarFlag, Text("712*")) == Some(Int(1)) && Unstarred("712*") == "712"
    ensures Apply(StarFlag, Text("712")) == Some(Int(0)) && Unstarred("712") == "712"
  {
    assert "712*"[..3] == "712";
  }

  /** Splitting the precipitation field: the value and the flag put back
      together give the raw token, the flag being its last character. */
  lemma PrecipitationSplit(x: string)
    requires |x| > 0
    ensures Apply(LastChar, Text(x)).Some? && Apply(AllButLast, Text(x)).Some?
    ensures Apply(AllButLast, Text(x)).value.s + Apply(LastChar, Text(x)).value.s == x
    ensures |Apply(LastChar, Text(x)).value.s| == 1
  {
    assert x == x[..|x| - 1] + [x[|x| - 1]];
  }

  /** The pattern spans at least five characters, so a shorter string never
      matches. */
  lemma ShortNeverMissing(s: string)
    requires |s| < 5
    ensures !HasMissingCode(s)
  {
  }

  /** A string without a '9' never matches. */
  lemma NoNineNeverMissing(s: string)
    requires '9' !in s
    ensures !HasMissingCode(s)
  {
  }

  /** A joined date `yyyy-mm-dd` never matches: every five consecutive
      characters of it include a hyphen. */
  lemma HyphenatedDateNeverMissing(s: string)
    requires |s| == 10 && s[4] == '-' && s[7] == '-'
    ensures !HasMissingCode(s)
  {
  }

  /** The missing-value codes of the GSOD format are caught; ordinary values
      and a quality-flagged temperature are not. */
  lemma MissingCodeExamples()
    ensures HasMissingCode("99.99") && HasMissingCode("9999.9") && HasMissingCode("999.9")
    ensures HasMissingCode("99999") && HasMissingCode("999999")
    ensures !HasMissingCode("712") && !HasMissingCode("0.00") && !HasMissingCode("1013.2")
  {
    assert MissingCodeAt("99.99", 0, 3);
    assert MissingCodeAt("9999.9", 0, 4);
    assert MissingCodeAt("999.9", 0, 3);
    assert MissingCodeAt("99999", 0, 3);
    assert MissingCodeAt("999999", 0, 4);
    NoNineNeverMissing("1013.2");
  }

  /** A cell is nulled exactly when it is a string in which the pattern is
      found, and the replacement is idempotent. */
  lemma NullIfMissingSpec(c: Cell)
    ensures NullIfMissing(c) == Null <==> c == Null || (c.Text? && HasMissingCode(c.s))
    ensures NullIfMissing(c) != Null ==> NullIfMissing(c) == c
    ensures NullIfMissing(NullIfMissing(c)) == NullIfMissing(c)
  {
  }
}
