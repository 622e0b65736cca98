/**
 * Reading the network id out of the deployer's standard output: the path
 * segment that follows `broadcast/<script>/`, found by splitting the text on
 * that pattern.
 */
module Output {
  import opened Wrappers
  import opened Paths

  /** `p` occurs in `s` starting at index `i`. */
  predicate OccursAt(s: string, p: string, i: nat) {
    i + |p| <= |s| && s[i..i + |p|] == p
  }

  /** The first index at or after `from` where `p` occurs in `s`, if any. */
  function FindFrom(s: string, p: string, from: nat): (r: Option<nat>)
    ensures r.Some? ==> from <= r.value && OccursAt(s, p, r.value)
    ensures r.Some? ==> forall k :: from <= k < r.value ==> !OccursAt(s, p, k)
    ensures r.None? ==> forall k :: from <= k <= |s| ==> !OccursAt(s, p, k)
    decreases |s| - from
  {
    if from + |p| > |s| then None
    else if s[from..from + |p|] == p then Some(from)
    else FindFrom(s, p, from + 1)
  }

  /** The text that separates the step's output from the network id. */
  function Pattern(scriptName: string): string {
    "broadcast/" + scriptName + "/"
  }

  /**
   * `s.split(p).nth(1)`: the piece between the first occurrence of `p` and
   * the next one that does not overlap it, or the end of `s`; nothing when
   * `p` does not occur.
   */
  function SecondPiece(s: string, p: string): Option<string>
    requires |p| > 0
  {
    match FindFrom(s, p, 0)
    case None => None
    case Some(i) =>
      var start := i + |p|;
      match FindFrom(s, p, start)
      case None => Some(s[start..])
      case Some(j) => Some(s[start..j])
  }

  /** `s.split('/').next()`: the text before the first `/`, or all of `s`. */
  function FirstSegment(s: string): (r: string)
    ensures |r| <= |s| && r == s[..|r|]
    ensures forall k :: 0 <= k < |r| ==> r[k] != '/'
    ensures |r| < |s| ==> s[|r|] == '/'
  {
    match FindFrom(s, "/", 0)
    case None =>
      assert forall k :: 0 <= k < |s| ==> s[k] != '/' by {
        forall k | 0 <= k < |s| ensures s[k] != '/' {
          assert !OccursAt(s, "/", k);
          assert s[k..k + 1] == [s[k]];
        }
      }
      s
    case Some(j) =>
      assert forall k :: 0 <= k < j ==> s[k] != '/' by {
        forall k | 0 <= k < j ensures s[k] != '/' {
          assert !OccursAt(s, "/", k);
          assert s[k..k + 1] == [s[k]];
        }
      }
      assert s[j..j + 1] == "/";
      s[..j]
  }

  /**
   * The text after the first occurrence of `p`, up to the first `/` or the
   * next occurrence of `p`; empty when `p` does not occur.
   */
  function IdAfter(s: string, p: string): string
    requires |p| > 0
  {
    match SecondPiece(s, p)
    case None => ""
    case Some(piece) => FirstSegment(piece)
  }

  /**
   * The network id printed by the deployer: never containing `/`, no longer
   * than the output, and empty when the output never mentions the pattern.
   */
  function ChainId(output: string, scriptName: string): (id: string)
    ensures forall k :: 0 <= k < |id| ==> id[k] != '/'
    ensures |id| <= |output|
    ensures (forall k :: 0 <= k <= |output| ==> !OccursAt(output, Pattern(scriptName), k)) ==> id == ""
  {
    IdAfter(output, Pattern(scriptName))
  }

  /** The pattern is never empty and starts with `b`. */
  lemma PatternStart(scriptName: string)
    ensures |Pattern(scriptName)| > 0 && Pattern(scriptName)[0] == 'b'
  {
  }

  /** The search returns the first occurrence at or after `from`. */
  lemma FindFromFirst(s: string, p: string, from: nat, i: nat)
    requires from <= i && OccursAt(s, p, i)
    requires forall k :: from <= k < i ==> !OccursAt(s, p, k)
    ensures FindFrom(s, p, from) == Some(i)
  {
  }

  /** A non-empty pattern cannot start at a character other than its first. */
  lemma NoOccurrenceAt(s: string, p: string, k: nat)
    requires |p| > 0 && k < |s| && s[k] != p[0]
    ensures !OccursAt(s, p, k)
  {
    if k + |p| <= |s| {
      assert s[k..k + |p|][0] == s[k];
    }
  }

  /** The text that SecondPiece yields when the pattern first occurs at `i`. */
  function PieceAfter(s: string, p: string, i: nat): (r: string)
    requires i + |p| <= |s|
    ensures i + |p| + |r| <= |s| && s[i + |p|..i + |p| + |r|] == r
    ensures i + |p| + |r| == |s| || OccursAt(s, p, i + |p| + |r|)
    ensures forall k :: i + |p| <= k < i + |p| + |r| ==> !OccursAt(s, p, k)
  {
    match FindFrom(s, p, i + |p|)
    case None => s[i + |p|..]
    case Some(j) => s[i + |p|..j]
  }

  /** After a first occurrence at `i`, the second piece starts right after it. */
  lemma SecondPieceAfter(s: string, p: string, i: nat)
    requires |p| > 0 && OccursAt(s, p, i)
    requires forall k :: 0 <= k < i ==> !OccursAt(s, p, k)
    ensures SecondPiece(s, p) == Some(PieceAfter(s, p, i))
  {
    FindFromFirst(s, p, 0, i);
  }

  /** The first segment of a piece of `s` is a piece of `s` too, ending at `/` or where the piece ends. */
  lemma SegmentInPlace(s: string, start: nat, piece: string)
    requires start + |piece| <= |s| && s[start..start + |piece|] == piece
    ensures var id := FirstSegment(piece);
      && start + |id| <= |s| && s[start..start + |id|] == id
      && (|id| == |piece| || s[start + |id|] == '/')
  {
    var id := FirstSegment(piece);
    assert forall k :: 0 <= k < |id| ==> piece[k] == s[start + k];
    if |id| < |piece| {
      assert piece[|id|] == s[start + |id|];
    }
  }

  /**
   * `id` is the text of `s` at `start`, up to the first of: the end of `s`,
   * a `/`, or the start of another occurrence of `p`.
   */
  predicate IdPlacedAt(s: string, p: string, start: nat, id: string) {
    && start + |id| <= |s|
    && s[start..start + |id|] == id
    && (forall k :: 0 <= k < |id| ==> id[k] != '/')
    && (forall k :: start <= k < start + |id| ==> !OccursAt(s, p, k))
    && (start + |id| == |s| || s[start + |id|] == '/' || OccursAt(s, p, start + |id|))
  }

  /** The placement determines the id: two texts placed at the same position are equal. */
  lemma IdPlacedUnique(s: string, p: string, start: nat, a: string, b: string)
    requires IdPlacedAt(s, p, start, a) && IdPlacedAt(s, p, start, b)
    ensures a == b
  {
    if |a| < |b| {
      ShorterNotPlaced(s, p, start, a, b);
    } else if |b| < |a| {
      ShorterNotPlaced(s, p, start, b, a);
    }
  }

  /** A placed text cannot stop inside a longer placed text: that would need a `/` or an occurrence there. */
  lemma ShorterNotPlaced(s: string, p: string, start: nat, a: string, b: string)
    requires IdPlacedAt(s, p, start, b) && |a| < |b|
    requires start + |a| <= |s| && s[start..start + |a|] == a
    ensures !IdPlacedAt(s, p, start, a)
  {
    var j := start + |a|;
    assert s[j] == b[|a|] by {
      assert s[start..start + |b|][|a|] == s[j];
    }
    assert b[|a|] != '/';
    assert !OccursAt(s, p, j);
  }

  /**
   * The id is the text just after the first occurrence of `p`, and it runs
   * to the first `/`, the next occurrence of `p`, or the end.
   */
  lemma IdFollowsFirstOccurrence(s: string, p: string, i: nat)
    requires |p| > 0 && OccursAt(s, p, i)
    requires forall k :: 0 <= k < i ==> !OccursAt(s, p, k)
    ensures IdPlacedAt(s, p, i + |p|, IdAfter(s, p))
  {
    IdAfterAt(s, p, i);
    SegmentAfter(s, p, i);
  }

  /** The first segment of the piece after position `i + |p|` sits there in `s`, and ends where the id must end. */
  lemma SegmentAfter(s: string, p: string, i: nat)
    requires i + |p| <= |s|
    ensures IdPlacedAt(s, p, i + |p|, FirstSegment(PieceAfter(s, p, i)))
  {
    var piece := PieceAfter(s, p, i);
    SegmentInPlace(s, i + |p|, piece);
    assert |FirstSegment(piece)| <= |piece|;
  }

  /** After a first occurrence at `i`, the id is the first segment of the piece that follows. */
  lemma IdAfterAt(s: string, p: string, i: nat)
    requires |p| > 0 && OccursAt(s, p, i)
    requires forall k :: 0 <= k < i ==> !OccursAt(s, p, k)
    ensures IdAfter(s, p) == FirstSegment(PieceAfter(s, p, i))
  {
    SecondPieceAfter(s, p, i);
  }

  /**
   * The id is the text just after the first occurrence of the pattern, and
   * it runs to the first `/`, the next occurrence of the pattern, or the end.
   */
  lemma ChainIdFollowsFirstOccurrence(output: string, scriptName: string, i: nat)
    requires OccursAt(output, Pattern(scriptName), i)
    requires forall k :: 0 <= k < i ==> !OccursAt(output, Pattern(scriptName), k)
    ensures IdPlacedAt(output, Pattern(scriptName), i + |Pattern(scriptName)|, ChainId(output, scriptName))
  {
    var p := Pattern(scriptName);
    assert |p| > 0 by {
      PatternStart(scriptName);
    }
    IdFollowsFirstOccurrence(output, p, i);
  }

  /**
   * When the text after the first occurrence begins with `id + "/"`, and no
   * character there is the pattern's first, the piece begins with it too.
   */
  lemma PieceBeginsWith(s: string, p: string, i: nat, id: string)
    requires |p| > 0 && i + |p| + |id| < |s|
    requires s[i + |p|..i + |p| + |id| + 1] == id + "/"
    requires forall k :: 0 <= k <= |id| ==> (id + "/")[k] != p[0]
    ensures var piece := PieceAfter(s, p, i);
      |piece| > |id| && piece[..|id| + 1] == id + "/"
  {
    var start := i + |p|;
    forall k | start <= k <= start + |id| ensures !OccursAt(s, p, k) {
      assert s[k] == (id + "/")[k - start];
      NoOccurrenceAt(s, p, k);
    }
  }

  /** The first segment of `id + "/" + ...` is `id` when `id` has no `/`. */
  lemma FirstSegmentOf(piece: string, id: string)
    requires |piece| > |id| && piece[..|id| + 1] == id + "/"
    requires forall k :: 0 <= k < |id| ==> id[k] != '/'
    ensures FirstSegment(piece) == id
  {
    var r := FirstSegment(piece);
    assert forall k :: 0 <= k < |id| ==> piece[k] == id[k];
    assert piece[|id|] == '/';
    assert forall k :: 0 <= k < |r| ==> piece[k] != '/';
    assert |r| == |id|;
  }

  /** `s` seen as `prefix + p` followed by `tail`. */
  lemma SplitAfterPattern(prefix: string, p: string, tail: string)
    ensures var s := prefix + p + tail;
      && OccursAt(s, p, |prefix|)
      && s[..|prefix| + |p|] == prefix + p
      && s[|prefix| + |p|..] == tail
  {
    var s := prefix + p + tail;
    assert s == (prefix + p) + tail;
  }

  /**
   * Round trip: an id without `/` and without the pattern's first character,
   * written after the pattern and followed by `/`, is read back exactly,
   * provided the pattern does not already occur before the inserted one.
   */
  lemma IdRoundTrip(prefix: string, p: string, id: string, rest: string)
    requires |p| > 0 && p[0] != '/'
    requires forall k :: 0 <= k < |id| ==> id[k] != '/' && id[k] != p[0]
    requires forall k :: 0 <= k < |prefix| ==> !OccursAt(prefix + p, p, k)
    ensures IdAfter(prefix + p + (id + "/" + rest), p) == id
  {
    var tail := id + "/" + rest;
    var s := prefix + p + tail;
    SplitAfterPattern(prefix, p, tail);
    NoEarlierOccurrence(prefix, p, tail);
    SecondPieceAfter(s, p, |prefix|);
    assert tail[..|id| + 1] == id + "/";
    CannotStart(id, p[0]);
    PieceBeginsWith(s, p, |prefix|, id);
    FirstSegmentOf(PieceAfter(s, p, |prefix|), id);
  }

  /** Occurrences that start in `prefix` stay absent when text is appended after `prefix + p`. */
  lemma NoEarlierOccurrence(prefix: string, p: string, tail: string)
    requires forall k :: 0 <= k < |prefix| ==> !OccursAt(prefix + p, p, k)
    ensures forall k :: 0 <= k < |prefix| ==> !OccursAt(prefix + p + tail, p, k)
  {
    var s := prefix + p + tail;
    forall k | 0 <= k < |prefix| ensures !OccursAt(s, p, k) {
      assert !OccursAt(prefix + p, p, k);
      assert s[k..k + |p|] == (prefix + p)[k..k + |p|];
    }
  }

  /** `id + "/"` holds no `c` when `id` holds none and `c` is not `/`. */
  lemma CannotStart(id: string, c: char)
    requires c != '/'
    requires forall k :: 0 <= k < |id| ==> id[k] != '/' && id[k] != c
    ensures forall k :: 0 <= k <= |id| ==> (id + "/")[k] != c
  {
    forall k | 0 <= k <= |id| ensures (id + "/")[k] != c {
      if k < |id| {
        assert (id + "/")[k] == id[k];
      }
    }
  }

  /**
   * Round trip: a numeric id written after the pattern, and followed by `/`,
   * is read back exactly, provided the pattern does not already occur
   * before the inserted one.
   */
  lemma ChainIdRoundTrip(prefix: string, scriptName: string, id: string, rest: string)
    requires AllDigits(id)
    requires forall k :: 0 <= k < |prefix| ==> !OccursAt(prefix + Pattern(scriptName), Pattern(scriptName), k)
    ensures ChainId(prefix + Pattern(scriptName) + id + "/" + rest, scriptName) == id
  {
    var p := Pattern(scriptName);
    PatternStart(scriptName);
    assert forall k :: 0 <= k < |id| ==> id[k] != '/' && id[k] != p[0] by {
      forall k | 0 <= k < |id| ensures id[k] != '/' && id[k] != p[0] {
        assert IsDigit(id[k]);
      }
    }
    IdRoundTrip(prefix, p, id, rest);
    assert prefix + p + id + "/" + rest == prefix + p + (id + "/" + rest);
  }

  /** When the text before the pattern has no `b`, the pattern cannot start in it. */
  lemma ChainIdAfterPlainText(prefix: string, scriptName: string, id: string, rest: string)
    requires AllDigits(id)
    requires forall k :: 0 <= k < |prefix| ==> prefix[k] != 'b'
    ensures ChainId(prefix + Pattern(scriptName) + id + "/" + rest, scriptName) == id
  {
    var p := Pattern(scriptName);
    PatternStart(scriptName);
    forall k | 0 <= k < |prefix| ensures !OccursAt(prefix + p, p, k) {
      assert (prefix + p)[k] == prefix[k];
      NoOccurrenceAt(prefix + p, p, k);
    }
    ChainIdRoundTrip(prefix, scriptName, id, rest);
  }

  /** The network id of a deployment to Base (8453), read from the record path the deployer prints. */
  lemma ChainIdOfBaseRecord(scriptName: string)
    ensures ChainId("../" + Pattern(scriptName) + "8453" + "/" + "run-latest.json", scriptName) == "8453"
  {
    ChainIdAfterPlainText("../", scriptName, "8453", "run-latest.json");
  }

  /** Any chain id rendered by `to_string` survives the round trip. */
  lemma ChainIdOfDecimal(prefix: string, scriptName: string, n: nat, rest: string)
    requires forall k :: 0 <= k < |prefix| ==> !OccursAt(prefix + Pattern(scriptName), Pattern(scriptName), k)
    ensures ChainId(prefix + Pattern(scriptName) + Decimal(n) + "/" + rest, scriptName) == Decimal(n)
  {
    ChainIdRoundTrip(prefix, scriptName, Decimal(n), rest);
  }

  /** A second occurrence of `p` right after `x` ends the piece there, when `x` cannot start `p`. */
  lemma IdStopsAtNextOccurrence(p: string, x: string, y: string)
    requires |p| > 0
    requires forall k :: 0 <= k < |x| ==> x[k] != p[0]
    ensures IdAfter(p + x + (p + y), p) == FirstSegment(x)
  {
    var s := p + x + (p + y);
    SplitAfterPattern([], p, x + (p + y));
    assert [] + p == p;
    SecondPieceAfter(s, p, 0);
    SplitAfterPattern(p + x, p, y);
    assert s == (p + x) + p + y;
    NoStartIn(p, x, y);
    FindFromFirst(s, p, |p|, |p| + |x|);
    assert PieceAfter(s, p, 0) == x;
  }

  /** In `p + x + (p + y)`, no occurrence of `p` starts inside `x` when no character of `x` is `p`'s first. */
  lemma NoStartIn(p: string, x: string, y: string)
    requires |p| > 0
    requires forall k :: 0 <= k < |x| ==> x[k] != p[0]
    ensures forall k :: |p| <= k < |p| + |x| ==> !OccursAt(p + x + (p + y), p, k)
  {
    var s := p + x + (p + y);
    forall k | |p| <= k < |p| + |x| ensures !OccursAt(s, p, k) {
      assert s[k] == x[k - |p|];
      NoOccurrenceAt(s, p, k);
    }
  }

  /**
   * The id also stops where the pattern occurs again, even before any `/`:
   * in `broadcast/S/1broadcast/S/x` the id is `1`, so a round trip needs
   * more of the id than the absence of `/`.
   */
  lemma ChainIdStopsAtNextPattern(scriptName: string, x: string, y: string)
    requires forall k :: 0 <= k < |x| ==> x[k] != 'b'
    ensures ChainId(Pattern(scriptName) + x + Pattern(scriptName) + y, scriptName) == FirstSegment(x)
  {
    var p := Pattern(scriptName);
    PatternStart(scriptName);
    IdStopsAtNextOccurrence(p, x, y);
    assert p + x + p + y == p + x + (p + y);
  }
}
