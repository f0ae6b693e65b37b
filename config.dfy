/** The CORS_ORIGINS setting of backend/app/config.py: "*" or a list of origins. */
module Config {
  import opened Wrappers
  import opened Text

  datatype CorsOrigins = AllowAll | Origins(list: seq<string>)

  /** An origin as the list keeps it: non-empty, no surrounding whitespace, no comma. */
  predicate IsCleanOrigin(o: string) {
    o != [] && !IsSpace(o[0]) && !IsSpace(o[|o| - 1]) && ',' !in o
  }

  predicate NoCommas(pieces: seq<string>) {
    forall i :: 0 <= i < |pieces| ==> ',' !in pieces[i]
  }

  predicate AllClean(os: seq<string>) {
    forall i :: 0 <= i < |os| ==> IsCleanOrigin(os[i])
  }

  /** r[k] is the entry of s at position idx[k], and that entry is not empty. */
  ghost predicate EntriesAt(s: seq<string>, r: seq<string>, idx: seq<int>) {
    |idx| == |r| && forall k :: 0 <= k < |idx| ==> 0 <= idx[k] < |s| && |s[idx[k]]| > 0 && r[k] == s[idx[k]]
  }

  ghost predicate Rising(idx: seq<int>) {
    forall k, l :: 0 <= k < l < |idx| ==> idx[k] < idx[l]
  }

  /** Every non-empty entry s[j] is named, as idx[pos[j]]. */
  ghost predicate Covers(s: seq<string>, idx: seq<int>, pos: seq<int>) {
    |pos| == |s| && forall j {:trigger pos[j]} :: 0 <= j < |s| && |s[j]| > 0 ==> 0 <= pos[j] < |idx| && idx[pos[j]] == j
  }

  /** r is s with its empty entries dropped and nothing else changed: the same entries, in the same order. */
  ghost predicate Selects(s: seq<string>, r: seq<string>) {
    exists idx, pos :: EntriesAt(s, r, idx) && Rising(idx) && Covers(s, idx, pos)
  }

  /** Every piece, stripped. */
  function StripEach(pieces: seq<string>): (r: seq<string>)
    ensures |r| == |pieces| && forall i :: 0 <= i < |pieces| ==> r[i] == Strip(pieces[i])
  {
    seq(|pieces|, i requires 0 <= i < |pieces| => Strip(pieces[i]))
  }

  /** [o.strip() for o in pieces if o.strip()], for comma-free pieces. */
  function CleanPieces(pieces: seq<string>): (r: seq<string>)
    requires NoCommas(pieces)
    ensures |r| <= |pieces|
    ensures AllClean(r)
  {
    if pieces == [] then []
    else
      var s := Strip(pieces[0]);
      TailNoCommas(pieces);
      var rest := CleanPieces(pieces[1..]);
      StripClean(pieces[0]);
      var head := if s != [] then [s] else [];
      CleanJoin(head, rest);
      head + rest
  }

  /** The cleaned list is the stripped pieces with the blank ones dropped: nothing reordered, nothing else lost. */
  lemma CleanPiecesSelects(pieces: seq<string>)
    requires NoCommas(pieces)
    ensures Selects(StripEach(pieces), CleanPieces(pieces))
  {
    var idx, pos := CleanPiecesAt(pieces);
  }

  /** The positions that witness CleanPiecesSelects, built piece by piece. */
  lemma {:induction false} CleanPiecesAt(pieces: seq<string>) returns (idx: seq<int>, pos: seq<int>)
    requires NoCommas(pieces)
    ensures EntriesAt(StripEach(pieces), CleanPieces(pieces), idx) && Rising(idx) && Covers(StripEach(pieces), idx, pos)
  {
    if pieces == [] {
      idx, pos := [], [];
    } else {
      TailNoCommas(pieces);
      var idx0, pos0 := CleanPiecesAt(pieces[1..]);
      idx, pos := CleanPiecesStep(pieces, idx0, pos0);
    }
  }

  /** One piece in front: the tail's positions move up by one, and a non-blank head takes position 0. */
  lemma CleanPiecesStep(pieces: seq<string>, idx0: seq<int>, pos0: seq<int>) returns (idx: seq<int>, pos: seq<int>)
    requires pieces != [] && NoCommas(pieces)
    requires EntriesAt(StripEach(pieces[1..]), CleanPieces(pieces[1..]), idx0) && Rising(idx0)
    requires Covers(StripEach(pieces[1..]), idx0, pos0)
    ensures EntriesAt(StripEach(pieces), CleanPieces(pieces), idx) && Rising(idx) && Covers(StripEach(pieces), idx, pos)
  {
    TailNoCommas(pieces);
    var h := Strip(pieces[0]);
    var s, rest := StripEach(pieces[1..]), CleanPieces(pieces[1..]);
    StripEachCons(pieces);
    if |h| > 0 {
      ConsKeep(h, s, rest, idx0, pos0, StripEach(pieces), CleanPieces(pieces));
      idx, pos := [0] + Shift(idx0, 1), [0] + Shift(pos0, 1);
    } else {
      ConsDrop(h, s, rest, idx0, pos0, StripEach(pieces));
      idx, pos := Shift(idx0, 1), [0] + Shift(pos0, 0);
    }
  }

  lemma StripEachCons(pieces: seq<string>)
    requires pieces != []
    ensures StripEach(pieces) == [Strip(pieces[0])] + StripEach(pieces[1..])
  {
    assert StripEach(pieces) == [Strip(pieces[0])] + StripEach(pieces[1..]);
  }

  /** Every position moved by d. */
  function Shift(idx: seq<int>, d: int): (r: seq<int>)
    ensures |r| == |idx| && forall k {:trigger r[k]} :: 0 <= k < |idx| ==> r[k] == idx[k] + d
  {
    seq(|idx|, k requires 0 <= k < |idx| => idx[k] + d)
  }

  /** A non-empty head is selected at position 0, and the tail's positions move up by one. */
  lemma ConsKeep(h: string, s: seq<string>, rest: seq<string>, idx0: seq<int>, pos0: seq<int>,
                 whole: seq<string>, r: seq<string>)
    requires |h| > 0 && EntriesAt(s, rest, idx0) && Rising(idx0) && Covers(s, idx0, pos0)
    requires whole == [h] + s && r == [h] + rest
    ensures EntriesAt(whole, r, [0] + Shift(idx0, 1)) && Rising([0] + Shift(idx0, 1))
    ensures Covers(whole, [0] + Shift(idx0, 1), [0] + Shift(pos0, 1))
  {
    ConsEntries(h, s, rest, idx0);
    ConsRising(h, s, rest, idx0);
    ConsCovers(h, s, idx0, pos0, [0] + Shift(idx0, 1));
  }

  /** An empty head is skipped, and the tail's positions move up by one. */
  lemma ConsDrop(h: string, s: seq<string>, rest: seq<string>, idx0: seq<int>, pos0: seq<int>, whole: seq<string>)
    requires |h| == 0 && EntriesAt(s, rest, idx0) && Rising(idx0) && Covers(s, idx0, pos0)
    requires whole == [h] + s
    ensures EntriesAt(whole, rest, Shift(idx0, 1)) && Rising(Shift(idx0, 1))
    ensures Covers(whole, Shift(idx0, 1), [0] + Shift(pos0, 0))
  {
    ConsEntries(h, s, rest, idx0);
    ConsRising(h, s, rest, idx0);
    ConsCovers(h, s, idx0, pos0, Shift(idx0, 1));
  }

  lemma ConsEntries(h: string, s: seq<string>, rest: seq<string>, idx0: seq<int>)
    requires EntriesAt(s, rest, idx0)
    ensures |h| > 0 ==> EntriesAt([h] + s, [h] + rest, [0] + Shift(idx0, 1))
    ensures EntriesAt([h] + s, rest, Shift(idx0, 1))
  {
    var whole := [h] + s;
    var shifted := Shift(idx0, 1);
    forall k | 0 <= k < |shifted| ensures 0 <= shifted[k] < |whole| && |whole[shifted[k]]| > 0 && rest[k] == whole[shifted[k]] {
      assert whole[shifted[k]] == s[idx0[k]];
    }
    if |h| > 0 {
      var idx := [0] + shifted;
      var r := [h] + rest;
      forall k | 0 <= k < |idx| ensures 0 <= idx[k] < |whole| && |whole[idx[k]]| > 0 && r[k] == whole[idx[k]] {
        if k > 0 {
          assert idx[k] == shifted[k - 1] && r[k] == rest[k - 1];
        }
      }
    }
  }

  lemma ConsRising(h: string, s: seq<string>, rest: seq<string>, idx0: seq<int>)
    requires EntriesAt(s, rest, idx0) && Rising(idx0)
    ensures Rising(Shift(idx0, 1)) && Rising([0] + Shift(idx0, 1))
  {
    var shifted := Shift(idx0, 1);
    var idx := [0] + shifted;
    forall k, l | 0 <= k < l < |idx| ensures idx[k] < idx[l] {
      assert idx[l] == shifted[l - 1] == idx0[l - 1] + 1;
      if k > 0 {
        assert idx[k] == shifted[k - 1];
      }
    }
  }

  lemma ConsCovers(h: string, s: seq<string>, idx0: seq<int>, pos0: seq<int>, idx: seq<int>)
    requires Covers(s, idx0, pos0)
    requires idx == if |h| > 0 then [0] + Shift(idx0, 1) else Shift(idx0, 1)
    ensures Covers([h] + s, idx, [0] + Shift(pos0, if |h| > 0 then 1 else 0))
  {
    var whole := [h] + s;
    var off := if |h| > 0 then 1 else 0;
    var pos := [0] + Shift(pos0, off);
    forall j | 0 <= j < |whole| && |whole[j]| > 0 ensures 0 <= pos[j] < |idx| && idx[pos[j]] == j {
      if j > 0 {
        assert whole[j] == s[j - 1] && pos[j] == pos0[j - 1] + off;
        assert 0 <= pos0[j - 1] < |idx0| && idx0[pos0[j - 1]] == j - 1;
        assert idx[pos[j]] == Shift(idx0, 1)[pos0[j - 1]];
      }
    }
  }

  lemma TailNoCommas(pieces: seq<string>)
    requires pieces != [] && NoCommas(pieces)
    ensures NoCommas(pieces[1..]) && ',' !in pieces[0]
  {
    forall i | 0 <= i < |pieces[1..]| ensures ',' !in pieces[1..][i] {
      assert pieces[1..][i] == pieces[i + 1];
    }
  }

  /** A comma-free piece strips to the empty string or to a clean origin. */
  lemma StripClean(p: string)
    requires ',' !in p
    ensures Strip(p) != [] ==> IsCleanOrigin(Strip(p))
  {
    StripKeepsOut(p, ',');
  }

  lemma CleanJoin(a: seq<string>, b: seq<string>)
    requires AllClean(a) && AllClean(b)
    ensures AllClean(a + b)
  {
    forall i | 0 <= i < |a + b| ensures IsCleanOrigin((a + b)[i]) {
      if i < |a| {
        assert (a + b)[i] == a[i];
      } else {
        assert (a + b)[i] == b[i - |a|];
      }
    }
  }

  /** _cors_origins(): "*" for an unset or blank variable, else the cleaned comma-separated list. */
  function CorsOriginsOf(env: Option<string>): (r: CorsOrigins)
    ensures r.AllowAll? <==> AllSpace(env.GetOr(""))
    ensures r.Origins? ==> AllClean(r.list)
    ensures r.Origins? ==> Selects(StripEach(Split(Strip(env.GetOr("")), ',')), r.list)
  {
    var raw := Strip(env.GetOr(""));
    if raw == [] then AllowAll
    else
      var pieces := Split(raw, ',');
      CleanPiecesSelects(pieces);
      Origins(CleanPieces(pieces))
  }

  /** A value of only commas is not blank, so it gives the empty list, not "*". */
  lemma OnlyCommaGivesNoOrigins()
    ensures CorsOriginsOf(Some(",")) == Origins([])
  {
    assert Strip(",") == ",";
    assert Split([], ',') == [[]];
    assert Split(",", ',') == [[], []];
  }

  /** Pieces that are already clean come through unchanged and in order. */
  lemma {:induction false} CleanPiecesKeepsClean(pieces: seq<string>)
    requires NoCommas(pieces) && AllClean(pieces)
    ensures CleanPieces(pieces) == pieces
  {
    if pieces != [] {
      var p := pieces[0];
      var tail := pieces[1..];
      assert IsCleanOrigin(p);
      StripFixpoint(p);
      TailNoCommas(pieces);
      assert AllClean(tail) by {
        forall i | 0 <= i < |tail| ensures IsCleanOrigin(tail[i]) {
          assert tail[i] == pieces[i + 1];
        }
      }
      CleanPiecesKeepsClean(tail);
      assert CleanPieces(pieces) == [p] + CleanPieces(tail);
      assert pieces == [p] + tail;
    }
  }

  /**
   * A well-formed setting (no whitespace, no empty entry) is parsed into exactly its
   * comma-separated entries: joining the list with commas gives the setting back.
   */
  lemma WellFormedRoundTrip(env: string, pieces: seq<string>)
    requires env != [] && forall k :: 0 <= k < |env| ==> !IsSpace(env[k])
    requires pieces == Split(env, ',')
    requires forall i :: 0 <= i < |pieces| ==> pieces[i] != []
    ensures CorsOriginsOf(Some(env)) == Origins(pieces)
    ensures Join(pieces, ',') == env
  {
    StripFixpoint(env);
    JoinSplit(env, ',');
    forall i | 0 <= i < |pieces| ensures IsCleanOrigin(pieces[i]) {
      SplitPieceChars(env, ',', i);
      assert pieces[i][0] in env && pieces[i][|pieces[i]| - 1] in env;
    }
    CleanPiecesKeepsClean(pieces);
  }
}
