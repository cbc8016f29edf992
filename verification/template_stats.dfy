/** The two statistics shown on the saved-templates tab of
    `src/components/EmailGenerator.tsx`: the most used tone and the average
    length band. */
module TemplateStats {

  /** A saved template as the generator stores it; `createdAt` (a `Date`
      in the code, never read here) is an opaque timestamp. */
  datatype Template = Template(id: string, content: string, tone: string, length: string, createdAt: int)

  /** `templates.map(t => t.tone)`. */
  function Tones(templates: seq<Template>): (ts: seq<string>)
    ensures |ts| == |templates|
    ensures forall i :: 0 <= i < |templates| ==> ts[i] == templates[i].tone
  {
    seq(|templates|, i requires 0 <= i < |templates| => templates[i].tone)
  }

  /** How many times `x` occurs in `ts`: the value the `reduce` step leaves
      under key `x`. */
  function Count(ts: seq<string>, x: string): (n: nat)
    ensures n <= |ts|
    ensures n > 0 <==> x in ts
  {
    if |ts| == 0 then 0
    else (if ts[0] == x then 1 else 0) + Count(ts[1..], x)
  }

  /** Two different values together occur at most once per position. */
  lemma {:induction false} CountDisjoint(ts: seq<string>, x: string, y: string)
    requires x != y
    ensures Count(ts, x) + Count(ts, y) <= |ts|
  {
    if |ts| > 0 {
      CountDisjoint(ts[1..], x, y);
    }
  }

  /** The position, among the first `n`, of the value the descending stable
      sort of the counts puts first: a value of largest count, and among
      those the one whose first occurrence comes earliest (the order in
      which the counting object received its keys). */
  function Best(ts: seq<string>, n: nat): (k: nat)
    requires 0 < n <= |ts|
    ensures k < n
    ensures forall j :: 0 <= j < n ==> Count(ts, ts[j]) <= Count(ts, ts[k])
    ensures forall j :: 0 <= j < k ==> Count(ts, ts[j]) < Count(ts, ts[k])
  {
    if n == 1 then 0
    else
      var k := Best(ts, n - 1);
      if Count(ts, ts[n - 1]) > Count(ts, ts[k]) then n - 1 else k
  }

  /** `getMostUsedTone`: "N/A" for no templates, and also when the winning
      tone is the empty string (the `|| 'N/A'` fallback). */
  function MostUsedTone(templates: seq<Template>): (r: string)
    ensures |templates| == 0 ==> r == "N/A"
    ensures |templates| > 0 ==>
      var ts := Tones(templates);
      exists k :: 0 <= k < |ts|
        && (if ts[k] == "" then r == "N/A" else r == ts[k])
        && (forall y :: Count(ts, y) <= Count(ts, ts[k]))
        && (forall j :: 0 <= j < k ==> Count(ts, ts[j]) < Count(ts, ts[k]))
  {
    var ts := Tones(templates);
    if |ts| == 0 then "N/A"
    else
      var k := Best(ts, |ts|);
      forall y | Count(ts, y) > 0
        ensures Count(ts, y) <= Count(ts, ts[k])
      {
        var j :| 0 <= j < |ts| && ts[j] == y;
      }
      if ts[k] == "" then "N/A" else ts[k]
  }

  /** A non-empty tone held by more than half of the templates is the one
      reported. */
  lemma MajorityToneWins(templates: seq<Template>, x: string)
    requires x != "" && 2 * Count(Tones(templates), x) > |templates|
    ensures MostUsedTone(templates) == x
  {
    var ts := Tones(templates);
    var r := MostUsedTone(templates);
    var k :| 0 <= k < |ts|
      && (if ts[k] == "" then r == "N/A" else r == ts[k])
      && (forall y :: Count(ts, y) <= Count(ts, ts[k]));
    if ts[k] != x {
      CountDisjoint(ts, x, ts[k]);
    }
  }

  // ----- Average length -----

  /** `s.length` in JavaScript: UTF-16 code units, so a character outside
      the Basic Multilingual Plane counts twice. */
  function Utf16Length(s: string): (n: nat)
    ensures |s| <= n <= 2 * |s|
  {
    if |s| == 0 then 0
    else (if s[0] as int >= 0x1_0000 then 2 else 1) + Utf16Length(s[1..])
  }

  /** The sum of the content lengths. */
  function TotalLength(templates: seq<Template>): (n: nat)
    ensures forall i :: 0 <= i < |templates| ==> Utf16Length(templates[i].content) <= n
  {
    if |templates| == 0 then 0
    else Utf16Length(templates[0].content) + TotalLength(templates[1..])
  }

  /** `getAverageLength`: the mean content length compared with 100 and
      300, in exact real arithmetic (the code uses floating point). */
  function AverageLength(templates: seq<Template>): (r: string)
    ensures |templates| == 0 <==> r == "N/A"
    ensures r == "Court" <==> |templates| > 0 && TotalLength(templates) < 100 * |templates|
    ensures r == "Moyen" <==>
      |templates| > 0 && 100 * |templates| <= TotalLength(templates) < 300 * |templates|
    ensures r == "Long" <==> |templates| > 0 && TotalLength(templates) >= 300 * |templates|
  {
    if |templates| == 0 then "N/A"
    else
      var n := |templates| as real;
      var avg := TotalLength(templates) as real / n;
      AverageBand(TotalLength(templates) as real, n);
      if avg < 100.0 then "Court"
      else if avg < 300.0 then "Moyen"
      else "Long"
  }

  /** Comparing a mean with a bound is comparing the total with the bound
      times the count. */
  lemma AverageBand(total: real, n: real)
    requires n > 0.0
    ensures total / n < 100.0 <==> total < 100.0 * n
    ensures total / n < 300.0 <==> total < 300.0 * n
  {
    MeanBelow(total, n, 100.0);
    MeanBelow(total, n, 300.0);
  }

  lemma MeanBelow(total: real, n: real, bound: real)
    requires n > 0.0
    ensures total / n < bound <==> total < bound * n
  {
    var a := total / n;
    assert total == a * n;
    if a < bound {
      assert a * n < bound * n;
    } else {
      assert a * n >= bound * n;
    }
  }
}
