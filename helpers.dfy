/**
 * The pure helpers of backend/app/routes/core.py: the phone masking of the request JSON, the venue
 * slug, and the one-exit-per-code listing of a venue's exits.
 */
module CoreHelpers {
  import opened Wrappers
  import opened Text
  import opened Models

  /** prefix followed by the last four characters of s: how both the phone and the plate are masked. */
  function KeepLastFour(prefix: string, s: string): (r: string)
    requires |s| >= 4
    ensures |r| == |prefix| + 4 && r[..|prefix|] == prefix && r[|prefix|..] == s[|s| - 4..]
  {
    prefix + s[|s| - 4..]
  }

  /** claimed_phone_masked of a request: nothing without a phone, "***" for a short one, else its last four digits. */
  function MaskPhone(phone: Option<string>): (r: Option<string>)
    ensures r.None? <==> phone.None? || phone.value == []
    ensures r.Some? && |phone.value| >= 4 ==> r.value == KeepLastFour("***-***-", phone.value)
    ensures r.Some? && |phone.value| < 4 ==> r.value == "***"
  {
    match phone
    case None => None
    case Some(p) =>
      if p == [] then None
      else if |p| >= 4 then Some(KeepLastFour("***-***-", p))
      else Some("***")
  }

  /** The mask reveals nothing but the last four characters: phones that share them mask alike. */
  lemma MaskPhoneHidesPrefix(p: string, q: string)
    requires |p| >= 4 && |q| >= 4 && p[|p| - 4..] == q[|q| - 4..]
    ensures MaskPhone(Some(p)) == MaskPhone(Some(q))
    ensures |MaskPhone(Some(p)).value| == 12
  {
  }

  predicate IsSlugChar(c: char) {
    'a' <= c <= 'z' || '0' <= c <= '9'
  }

  /** Only slug characters and dashes. */
  predicate SlugText(t: string) {
    forall k :: 0 <= k < |t| ==> IsSlugChar(t[k]) || t[k] == '-'
  }

  predicate NoDoubleDash(t: string) {
    forall j, k :: 0 <= j < |t| && 0 <= k < |t| && k == j + 1 ==> t[j] != '-' || t[k] != '-'
  }

  /** What _slugify can return: non-empty words of [a-z0-9] joined by single dashes. */
  predicate IsSlug(t: string) {
    t != [] && SlugText(t) && NoDoubleDash(t) && t[0] != '-' && t[|t| - 1] != '-'
  }

  /** Drops a leading run of characters outside [a-z0-9]. */
  function SkipRun(s: string): (r: string)
    ensures |r| <= |s| && r == s[|s| - |r|..]
    ensures r == [] || IsSlugChar(r[0])
  {
    if s != [] && !IsSlugChar(s[0]) then
      var r := SkipRun(s[1..]);
      assert s[1..][|s| - 1 - |r|..] == s[|s| - |r|..];
      r
    else s
  }

  /** re.sub(r"[^a-z0-9]+", "-", s): every maximal run of other characters becomes one dash. */
  function DashRuns(s: string): (r: string)
    ensures SlugText(r) && NoDoubleDash(r)
    ensures s != [] && IsSlugChar(s[0]) ==> r != [] && r[0] == s[0]
    ensures s == [] <==> r == []
    decreases |s|
  {
    if s == [] then []
    else if IsSlugChar(s[0]) then [s[0]] + DashRuns(s[1..])
    else "-" + DashRuns(SkipRun(s[1..]))
  }

  /** Dropping a prefix keeps a string slug text without double dashes. */
  lemma SuffixKeepsSlugText(t: string, n: int)
    requires SlugText(t) && NoDoubleDash(t) && 0 <= n <= |t|
    ensures SlugText(t[n..]) && NoDoubleDash(t[n..])
  {
    assert forall k :: 0 <= k < |t[n..]| ==> t[n..][k] == t[n + k];
  }

  /** Dropping a suffix keeps a string slug text without double dashes. */
  lemma PrefixKeepsSlugText(t: string, n: int)
    requires SlugText(t) && NoDoubleDash(t) && 0 <= n <= |t|
    ensures SlugText(t[..n]) && NoDoubleDash(t[..n])
  {
    assert forall k :: 0 <= k < n ==> t[..n][k] == t[k];
  }

  predicate AllDashes(t: string) {
    forall k :: 0 <= k < |t| ==> t[k] == '-'
  }

  /** str.lstrip("-"). */
  function LStripDashes(s: string): (r: string)
    ensures |r| <= |s| && r == s[|s| - |r|..]
    ensures r == [] || r[0] != '-'
    ensures s == [] || s[0] != '-' ==> r == s
  {
    if s != [] && s[0] == '-' then LStripDashes(s[1..]) else s
  }

  /** What lstrip("-") drops is dashes. */
  lemma {:induction false} LStripDashesDrops(s: string)
    ensures AllDashes(s[..|s| - |LStripDashes(s)|])
    decreases |s|
  {
    if s != [] && s[0] == '-' {
      var r := LStripDashes(s[1..]);
      LStripDashesDrops(s[1..]);
      assert s[..|s| - |r|] == [s[0]] + s[1..][..|s| - 1 - |r|];
    }
  }

  /** str.rstrip("-"). */
  function RStripDashes(s: string): (r: string)
    ensures |r| <= |s| && r == s[..|r|]
    ensures r == [] || r[|r| - 1] != '-'
    ensures s == [] || s[|s| - 1] != '-' ==> r == s
  {
    if s != [] && s[|s| - 1] == '-' then RStripDashes(s[..|s| - 1]) else s
  }

  /** What rstrip("-") drops is dashes. */
  lemma {:induction false} RStripDashesDrops(s: string)
    ensures AllDashes(s[|RStripDashes(s)|..])
    decreases |s|
  {
    if s != [] && s[|s| - 1] == '-' {
      var r := RStripDashes(s[..|s| - 1]);
      RStripDashesDrops(s[..|s| - 1]);
      assert s[|r|..] == s[..|s| - 1][|r|..] + [s[|s| - 1]];
    }
  }

  /** str.strip("-"): keeps slug text free of double dashes, and removes the outer dashes. */
  function StripDashes(s: string): (r: string)
    requires SlugText(s) && NoDoubleDash(s)
    ensures SlugText(r) && NoDoubleDash(r)
    ensures r == [] || (r[0] != '-' && r[|r| - 1] != '-')
    ensures (s == [] || (s[0] != '-' && s[|s| - 1] != '-')) ==> r == s
  {
    var l := LStripDashes(s);
    SuffixKeepsSlugText(s, |s| - |l|);
    var r := RStripDashes(l);
    PrefixKeepsSlugText(l, |r|);
    assert r != [] ==> r[0] == l[0];
    r
  }

  /** strip("-") removes dashes from the two ends and nothing else: the result is a slice of s between runs of dashes. */
  lemma StripDashesSlice(s: string)
    requires SlugText(s) && NoDoubleDash(s)
    ensures exists i, j :: 0 <= i <= j <= |s| && StripDashes(s) == s[i..j] && AllDashes(s[..i]) && AllDashes(s[j..])
  {
    assert StripDashes(s) == RStripDashes(LStripDashes(s));
    var i, j := TrimDashesSlice(s);
  }

  lemma TrimDashesSlice(s: string) returns (i: int, j: int)
    ensures 0 <= i <= j <= |s| && RStripDashes(LStripDashes(s)) == s[i..j] && AllDashes(s[..i]) && AllDashes(s[j..])
  {
    var l := LStripDashes(s);
    var r := RStripDashes(l);
    LStripDashesDrops(s);
    RStripDashesDrops(l);
    i, j := |s| - |l|, |s| - |l| + |r|;
    assert l == s[i..];
    assert l[..|r|] == s[i..j];
    assert l[|r|..] == s[j..];
  }

  lemma VenueIsSlug()
    ensures IsSlug("venue")
  {
    var v := "venue";
    assert v[0] == 'v' && v[1] == 'e' && v[2] == 'n' && v[3] == 'u' && v[4] == 'e';
  }

  /** _slugify(name): lower-case, runs of other characters to one dash, no outer dashes, "venue" if nothing is left. */
  function Slugify(name: string): (r: string)
    ensures IsSlug(r)
  {
    var s := StripDashes(DashRuns(Lower(name)));
    VenueIsSlug();
    if s == [] then "venue" else s
  }

  /** A slug run through DashRuns comes back unchanged. */
  lemma {:induction false} DashRunsFixpoint(t: string)
    requires SlugText(t) && NoDoubleDash(t) && (t == [] || t[0] != '-' || |t| == 1 || t[1] != '-')
    ensures DashRuns(t) == t
    decreases |t|
  {
    if t != [] {
      var rest := t[1..];
      assert SlugText(rest) && NoDoubleDash(rest) by {
        assert forall k :: 0 <= k < |rest| ==> rest[k] == t[k + 1];
      }
      if IsSlugChar(t[0]) {
        if |rest| >= 2 && rest[0] == '-' {
          assert t[2] == rest[1];
        }
        DashRunsFixpoint(rest);
      } else {
        assert rest == [] || IsSlugChar(rest[0]);
        assert SkipRun(rest) == rest;
        if |rest| >= 2 {
          assert rest[0] != '-';
        }
        DashRunsFixpoint(rest);
        assert t == "-" + rest;
      }
    }
  }

  /** Slugging a slug gives it back, so _slugify is idempotent. */
  lemma SlugifyFixpoint(t: string)
    requires IsSlug(t)
    ensures Slugify(t) == t
  {
    assert Lower(t) == t;
    DashRunsFixpoint(t);
  }

  lemma SlugifyIdempotent(name: string)
    ensures Slugify(Slugify(name)) == Slugify(name)
  {
    SlugifyFixpoint(Slugify(name));
  }

  /** The [a-z0-9] characters of s, in order. */
  function SlugChars(s: string): (r: string)
    ensures |r| <= |s|
  {
    if s == [] then [] else (if IsSlugChar(s[0]) then [s[0]] else []) + SlugChars(s[1..])
  }

  lemma {:induction false} SlugCharsConcat(a: string, b: string)
    ensures SlugChars(a + b) == SlugChars(a) + SlugChars(b)
    decreases |a|
  {
    if a == [] {
      assert a + b == b;
    } else {
      var h := if IsSlugChar(a[0]) then [a[0]] else [];
      assert (a + b)[0] == a[0] && (a + b)[1..] == a[1..] + b;
      assert SlugChars(a + b) == h + SlugChars(a[1..] + b);
      SlugCharsConcat(a[1..], b);
      assert SlugChars(a) == h + SlugChars(a[1..]);
    }
  }

  lemma {:induction false} SlugCharsDashes(t: string)
    requires AllDashes(t)
    ensures SlugChars(t) == []
    decreases |t|
  {
    if t != [] {
      SlugCharsDashes(t[1..]);
    }
  }

  /** SkipRun drops no [a-z0-9] character. */
  lemma {:induction false} SkipRunKeeps(s: string)
    ensures SlugChars(SkipRun(s)) == SlugChars(s)
    decreases |s|
  {
    if s != [] && !IsSlugChar(s[0]) {
      SkipRunKeeps(s[1..]);
    }
  }

  /** SkipRun comes back empty only from a run of other characters throughout. */
  lemma {:induction false} SkipRunEmpty(s: string)
    requires SkipRun(s) == []
    ensures forall k :: 0 <= k < |s| ==> !IsSlugChar(s[k])
    decreases |s|
  {
    if s != [] {
      SkipRunEmpty(s[1..]);
      forall k | 1 <= k < |s| ensures !IsSlugChar(s[k]) {
        assert s[k] == s[1..][k - 1];
      }
    }
  }

  lemma AppendAssoc(a: string, b: string, c: string)
    ensures a + (b + c) == (a + b) + c
  {
  }

  /** What SkipRun leaves ends where s ends. */
  lemma SkipRunLast(s: string)
    requires SkipRun(s) != []
    ensures SkipRun(s)[|SkipRun(s)| - 1] == s[|s| - 1]
  {
    var r := SkipRun(s);
    assert r[|r| - 1] == s[|s| - |r|..][|r| - 1];
  }

  /** What follows s matters to SkipRun only when s is one run of other characters throughout. */
  lemma {:induction false} SkipRunConcat(s: string, v: string)
    ensures SkipRun(s) != [] ==> SkipRun(s + v) == SkipRun(s) + v
    ensures SkipRun(s) == [] && (v == [] || IsSlugChar(v[0])) ==> SkipRun(s + v) == v
    decreases |s|
  {
    if s == [] {
      assert s + v == v;
    } else if !IsSlugChar(s[0]) {
      assert (s + v)[1..] == s[1..] + v;
      SkipRunConcat(s[1..], v);
    }
  }

  /** DashRuns keeps every [a-z0-9] character, in order, and adds nothing but dashes. */
  lemma {:induction false} DashRunsKeeps(s: string)
    ensures SlugChars(DashRuns(s)) == SlugChars(s)
    decreases |s|
  {
    if s != [] {
      if IsSlugChar(s[0]) {
        DashRunsKeeps(s[1..]);
        SlugCharsConcat([s[0]], DashRuns(s[1..]));
      } else {
        var t := SkipRun(s[1..]);
        DashRunsKeeps(t);
        SkipRunKeeps(s[1..]);
        SlugCharsConcat("-", DashRuns(t));
      }
    }
  }

  /** A run of characters outside [a-z0-9], however long, becomes one dash. */
  lemma DashRunsOneRun(s: string)
    requires s != [] && forall k :: 0 <= k < |s| ==> !IsSlugChar(s[k])
    ensures DashRuns(s) == "-"
  {
  }

  /**
   * DashRuns works piece by piece at any cut that does not split a run of other characters:
   * with the one-character cases and DashRunsOneRun, this fixes its result.
   */
  lemma {:induction false} DashRunsConcat(u: string, v: string)
    requires u == [] || v == [] || IsSlugChar(u[|u| - 1]) || IsSlugChar(v[0])
    ensures DashRuns(u + v) == DashRuns(u) + DashRuns(v)
    decreases |u|, 1
  {
    if u == [] {
      assert u + v == v;
    } else if IsSlugChar(u[0]) {
      ConcatAfterSlug(u, v);
    } else {
      ConcatAfterRun(u, v);
    }
  }

  lemma {:induction false} ConcatAfterSlug(u: string, v: string)
    requires u != [] && IsSlugChar(u[0])
    requires v == [] || IsSlugChar(u[|u| - 1]) || IsSlugChar(v[0])
    ensures DashRuns(u + v) == DashRuns(u) + DashRuns(v)
    decreases |u|, 0
  {
    var w := u + v;
    assert w[0] == u[0] && w[1..] == u[1..] + v;
    assert DashRuns(w) == [u[0]] + DashRuns(u[1..] + v);
    if |u| > 1 {
      DashRunsConcat(u[1..], v);
      AppendAssoc([u[0]], DashRuns(u[1..]), DashRuns(v));
    } else {
      assert u[1..] + v == v;
    }
  }

  lemma {:induction false} ConcatAfterRun(u: string, v: string)
    requires u != [] && !IsSlugChar(u[0])
    requires v == [] || IsSlugChar(u[|u| - 1]) || IsSlugChar(v[0])
    ensures DashRuns(u + v) == DashRuns(u) + DashRuns(v)
    decreases |u|, 0
  {
    var w := u + v;
    assert w[0] == u[0] && w[1..] == u[1..] + v;
    var t := SkipRun(u[1..]);
    assert DashRuns(w) == "-" + DashRuns(SkipRun(u[1..] + v));
    assert DashRuns(u) == "-" + DashRuns(t);
    SkipRunConcat(u[1..], v);
    if t != [] {
      SkipRunLast(u[1..]);
      assert u[1..][|u| - 2] == u[|u| - 1];
      DashRunsConcat(t, v);
      AppendAssoc("-", DashRuns(t), DashRuns(v));
    } else {
      SkipRunEmpty(u[1..]);
      if |u| > 1 {
        assert u[|u| - 1] == u[1..][|u| - 2];
      }
      assert SkipRun(u[1..] + v) == v;
      assert DashRuns(u) == "-";
    }
  }

  /** strip("-") removes dashes only, so it keeps every [a-z0-9] character, in order. */
  lemma StripDashesKeeps(s: string)
    requires SlugText(s) && NoDoubleDash(s)
    ensures SlugChars(StripDashes(s)) == SlugChars(s)
  {
    StripDashesSlice(s);
    var i, j :| 0 <= i <= j <= |s| && StripDashes(s) == s[i..j] && AllDashes(s[..i]) && AllDashes(s[j..]);
    SlugCharsSlice(s, i, j);
  }

  /** Cutting runs of dashes off both ends of s keeps its [a-z0-9] characters. */
  lemma SlugCharsSlice(s: string, i: int, j: int)
    requires 0 <= i <= j <= |s| && AllDashes(s[..i]) && AllDashes(s[j..])
    ensures SlugChars(s[i..j]) == SlugChars(s)
  {
    assert s[..j] == s[..i] + s[i..j];
    assert s == s[..j] + s[j..];
    SlugCharsConcat(s[..j], s[j..]);
    SlugCharsConcat(s[..i], s[i..j]);
    SlugCharsDashes(s[..i]);
    SlugCharsDashes(s[j..]);
  }

  /**
   * The slug holds exactly the [a-z0-9] characters of the lower-cased name, in order; a name
   * with none of them gets "venue".
   */
  lemma SlugifyKeeps(name: string)
    ensures SlugChars(Lower(name)) == [] ==> Slugify(name) == "venue"
    ensures SlugChars(Lower(name)) != [] ==> SlugChars(Slugify(name)) == SlugChars(Lower(name))
  {
    var d := DashRuns(Lower(name));
    var s := StripDashes(d);
    DashRunsKeeps(Lower(name));
    StripDashesKeeps(d);
    if s != [] {
      assert IsSlugChar(s[0]);
      assert SlugChars(s) == [s[0]] + SlugChars(s[1..]);
    }
  }

  /** A word of [a-z0-9] characters comes through DashRuns unchanged. */
  lemma {:induction false} DashRunsWord(w: string)
    requires forall k :: 0 <= k < |w| ==> IsSlugChar(w[k])
    ensures DashRuns(w) == w
    decreases |w|
  {
    if w != [] {
      DashRunsWord(w[1..]);
    }
  }

  /**
   * Two words of [a-z0-9] with a run of other characters between them slug to the words joined
   * by one dash: _slugify("my venue") is "my-venue".
   */
  lemma SlugifyJoinsWords(a: string, sep: string, b: string)
    requires a != [] && sep != [] && b != []
    requires forall k :: 0 <= k < |a| ==> IsSlugChar(a[k])
    requires forall k :: 0 <= k < |b| ==> IsSlugChar(b[k])
    requires forall k :: 0 <= k < |sep| ==> !IsSlugChar(LowerChar(sep[k]))
    ensures Slugify(a + sep + b) == a + "-" + b
  {
    LowerJoin(a, sep, b);
    DashRunsJoinsWords(a, Lower(sep), b);
    var d := a + "-" + b;
    assert d[0] == a[0] && d[|d| - 1] == b[|b| - 1];
  }

  lemma DashRunsJoinsWords(a: string, sep: string, b: string)
    requires a != [] && sep != [] && b != []
    requires forall k :: 0 <= k < |a| ==> IsSlugChar(a[k])
    requires forall k :: 0 <= k < |b| ==> IsSlugChar(b[k])
    requires forall k :: 0 <= k < |sep| ==> !IsSlugChar(sep[k])
    ensures DashRuns(a + (sep + b)) == a + "-" + b
  {
    DashRunsConcat(a, sep + b);
    DashRunsWord(a);
    DashRunsConcat(sep, b);
    DashRunsOneRun(sep);
    DashRunsWord(b);
    AppendAssoc(a, "-", b);
  }

  lemma LowerJoin(a: string, sep: string, b: string)
    requires forall k :: 0 <= k < |a| ==> IsSlugChar(a[k])
    requires forall k :: 0 <= k < |b| ==> IsSlugChar(b[k])
    ensures Lower(a + sep + b) == a + (Lower(sep) + b)
  {
    var s := a + sep + b;
    var l := Lower(s);
    var low := Lower(sep);
    var m := a + (low + b);
    assert |l| == |m|;
    forall k | 0 <= k < |l| ensures l[k] == m[k] {
      assert l[k] == LowerChar(s[k]);
      if k < |a| {
        assert s[k] == a[k] && m[k] == a[k];
      } else if k < |a| + |sep| {
        assert s[k] == sep[k - |a|] && m[k] == low[k - |a|];
      } else {
        assert s[k] == b[k - |a| - |sep|] && m[k] == b[k - |a| - |sep|];
      }
    }
  }

  /** The order in which list_exits returns the one exit kept per code. */
  const ExitCodeOrder: seq<string> := ["A", "B", "C"]

  /** The rows of Exit.query.filter_by(venue_id=venueId, is_active=True), kept in id order. */
  function ActiveExitsOf(xs: seq<Exit>, venueId: int): (r: seq<Exit>)
    ensures |r| <= |xs|
    ensures forall e :: e in r <==> e in xs && e.venueId == venueId && e.isActive
  {
    if xs == [] then []
    else (if xs[0].venueId == venueId && xs[0].isActive then [xs[0]] else []) + ActiveExitsOf(xs[1..], venueId)
  }

  /** The position of the first exit with this code: the one by_code keeps. */
  function FirstOfCode(xs: seq<Exit>, code: string): (r: Option<nat>)
    ensures r.Some? ==> r.value < |xs| && xs[r.value].code == code
    ensures r.Some? ==> forall k :: 0 <= k < r.value ==> xs[k].code != code
    ensures r.None? ==> forall k :: 0 <= k < |xs| ==> xs[k].code != code
  {
    if xs == [] then None
    else
      var p := FirstOfCode(xs[..|xs| - 1], code);
      if p.Some? then p
      else if xs[|xs| - 1].code == code then Some(|xs| - 1)
      else None
  }

  /** Extending the list by one exit keeps the earlier first position, or makes the new exit the first of its code. */
  lemma FirstOfCodeStep(xs: seq<Exit>, i: int, c: string)
    requires 0 <= i < |xs|
    ensures FirstOfCode(xs[..i + 1], c) ==
      (if FirstOfCode(xs[..i], c).Some? then FirstOfCode(xs[..i], c)
       else if xs[i].code == c then Some(i) else None)
  {
    assert xs[..i + 1][..i] == xs[..i];
  }

  /** by_code holds, for each code seen so far, the first exit that had it. */
  ghost predicate IsByCode(m: map<string, Exit>, xs: seq<Exit>) {
    forall c :: (c in m <==> FirstOfCode(xs, c).Some?) && (c in m ==> m[c] == xs[FirstOfCode(xs, c).value])
  }

  /** One turn of the loop of list_exits: a code not yet in by_code gets the current exit. */
  lemma ByCodeStep(m: map<string, Exit>, xs: seq<Exit>, i: int)
    requires 0 <= i < |xs| && IsByCode(m, xs[..i])
    ensures IsByCode(if xs[i].code !in m then m[xs[i].code := xs[i]] else m, xs[..i + 1])
  {
    var m' := if xs[i].code !in m then m[xs[i].code := xs[i]] else m;
    forall c ensures (c in m' <==> FirstOfCode(xs[..i + 1], c).Some?)
      && (c in m' ==> m'[c] == xs[..i + 1][FirstOfCode(xs[..i + 1], c).value])
    {
      FirstOfCodeStep(xs, i, c);
    }
  }

  /** [by_code[c] for c in codes if c in by_code]. */
  function PickByCode(xs: seq<Exit>, codes: seq<string>): seq<Exit> {
    if codes == [] then []
    else
      (match FirstOfCode(xs, codes[0]) case Some(k) => [xs[k]] case None => [])
      + PickByCode(xs, codes[1..])
  }

  /** The loop of list_exits: by_code keeps, for each code, the first exit seen with it. */
  method BuildByCode(xs: seq<Exit>) returns (byCode: map<string, Exit>)
    ensures IsByCode(byCode, xs)
  {
    byCode := map[];
    var i := 0;
    while i < |xs|
      invariant 0 <= i <= |xs|
      invariant IsByCode(byCode, xs[..i])
    {
      ByCodeStep(byCode, xs, i);
      if xs[i].code !in byCode {
        byCode := byCode[xs[i].code := xs[i]];
      }
      i := i + 1;
    }
    assert xs[..i] == xs;
  }

  /** [by_code[c] for c in codes if c in by_code], read off the dictionary. */
  function FromByCode(m: map<string, Exit>, codes: seq<string>): seq<Exit> {
    if codes == [] then []
    else (if codes[0] in m then [m[codes[0]]] else []) + FromByCode(m, codes[1..])
  }

  /** Reading the dictionary built by the loop gives the first exit of each code. */
  lemma {:induction false} FromByCodeIsPick(m: map<string, Exit>, xs: seq<Exit>, codes: seq<string>)
    requires IsByCode(m, xs)
    ensures FromByCode(m, codes) == PickByCode(xs, codes)
  {
    if codes != [] {
      FromByCodeIsPick(m, xs, codes[1..]);
    }
  }

  /** list_exits: the first active exit of the venue for each of the codes A, B and C, in that order. */
  method ListExits(table: seq<Exit>, venueId: int) returns (r: seq<Exit>)
    ensures r == PickByCode(ActiveExitsOf(table, venueId), ExitCodeOrder)
  {
    var xs := ActiveExitsOf(table, venueId);
    var byCode := BuildByCode(xs);
    FromByCodeIsPick(byCode, xs, ExitCodeOrder);
    r := FromByCode(byCode, ExitCodeOrder);
  }

  /**
   * What list_exits returns: active exits of the venue, at most one per code, codes A, B, C in
   * that order, each the lowest-id exit with its code; a code is missing only when no active exit
   * of the venue has it.
   */
  lemma {:induction false} PickByCodeShape(xs: seq<Exit>, codes: seq<string>)
    ensures |PickByCode(xs, codes)| <= |codes|
    ensures forall e :: e in PickByCode(xs, codes) ==> e in xs && e.code in codes
    ensures forall e :: e in PickByCode(xs, codes) ==>
      exists i :: 0 <= i < |xs| && xs[i] == e && forall k :: 0 <= k < i ==> xs[k].code != e.code
    ensures forall c :: c in codes && (exists k :: 0 <= k < |xs| && xs[k].code == c) ==>
      exists e :: e in PickByCode(xs, codes) && e.code == c
  {
    if codes != [] {
      PickByCodeShape(xs, codes[1..]);
      var p := FirstOfCode(xs, codes[0]);
      if p.Some? {
        assert xs[p.value] in PickByCode(xs, codes);
      }
      forall c | c in codes && (exists k :: 0 <= k < |xs| && xs[k].code == c)
        ensures exists e :: e in PickByCode(xs, codes) && e.code == c
      {
        if c == codes[0] {
          assert xs[p.value] in PickByCode(xs, codes);
        } else {
          assert c in codes[1..];
        }
      }
    }
  }
}
