/**
 * `extractYouTubeId` in server/src/index.ts: the first match of the pattern
 * `(?:v=|youtu\.be\/|embed\/)([A-Za-z0-9_-]{11})` anywhere in the url gives
 * the 11-character video id; without a match the url itself is used.
 */
module YouTube {
  import opened Optional

  const ID_LENGTH: nat := 11

  /** `[A-Za-z0-9_-]` */
  predicate IsIdChar(c: char) {
    ('A' <= c <= 'Z') || ('a' <= c <= 'z') || ('0' <= c <= '9') || c == '_' || c == '-'
  }

  /** Eleven id characters start at position `j`. */
  predicate IdAt(url: string, j: nat) {
    j + ID_LENGTH <= |url| && forall k :: j <= k < j + ID_LENGTH ==> IsIdChar(url[k])
  }

  /** The literal `lit` starts at position `i`. */
  predicate LiteralAt(url: string, i: nat, lit: string) {
    i + |lit| <= |url| && url[i..i + |lit|] == lit
  }

  /**
   * The regular expression tried at position `i`: the alternatives in order,
   * each followed by the id group; the result is the length of the marker of
   * the first alternative that completes a match.
   */
  function MatchAt(url: string, i: nat): (m: Option<nat>)
    ensures m.Some? ==> IdAt(url, i + m.value)
  {
    if LiteralAt(url, i, "v=") && IdAt(url, i + 2) then Some(2)
    else if LiteralAt(url, i, "youtu.be/") && IdAt(url, i + 9) then Some(9)
    else if LiteralAt(url, i, "embed/") && IdAt(url, i + 6) then Some(6)
    else None
  }

  /** No position of the url starts a match. */
  ghost predicate NoMatch(url: string) {
    forall i :: 0 <= i <= |url| ==> MatchAt(url, i).None?
  }

  /** `i` is the leftmost position where a match starts. */
  ghost predicate FirstMatch(url: string, i: nat) {
    i <= |url| && MatchAt(url, i).Some? && forall j :: 0 <= j < i ==> MatchAt(url, j).None?
  }

  /** The id group of the match that starts at `i`. */
  function CapturedAt(url: string, i: nat): (id: string)
    requires MatchAt(url, i).Some?
    ensures |id| == ID_LENGTH && forall c :: c in id ==> IsIdChar(c)
  {
    var start := i + MatchAt(url, i).value;
    var id := url[start..start + ID_LENGTH];
    assert forall k :: 0 <= k < |id| ==> id[k] == url[start + k];
    id
  }

  /** The leftmost match at or after position `from`, as the regex engine scans. */
  function Search(url: string, from: nat): (r: Option<nat>)
    decreases |url| + 1 - from
    ensures r.Some? ==> from <= r.value <= |url| && MatchAt(url, r.value).Some?
    ensures r.Some? ==> forall j :: from <= j < r.value ==> MatchAt(url, j).None?
    ensures r.None? ==> forall j :: from <= j <= |url| ==> MatchAt(url, j).None?
  {
    if from > |url| then None
    else if MatchAt(url, from).Some? then Some(from)
    else Search(url, from + 1)
  }

  /** extractYouTubeId */
  function ExtractYouTubeId(url: string): (id: string)
    ensures NoMatch(url) ==> id == url
    ensures forall i :: FirstMatch(url, i) ==> id == CapturedAt(url, i)
    ensures !NoMatch(url) ==> |id| == ID_LENGTH && forall c :: c in id ==> IsIdChar(c)
  {
    match Search(url, 0)
    case Some(i) => CapturedAt(url, i)
    case None => url
  }

  /** Examples: a short link gives its id; text without a full id is kept. */
  lemma ExtractExamples()
    ensures ExtractYouTubeId("youtu.be/dQw4w9WgXcQ") == "dQw4w9WgXcQ"
    ensures ExtractYouTubeId("v=short") == "v=short"
  {
    assert LiteralAt("youtu.be/dQw4w9WgXcQ", 0, "youtu.be/");
    assert "youtu.be/dQw4w9WgXcQ"[0..2][0] != "v="[0];
    assert MatchAt("youtu.be/dQw4w9WgXcQ", 0) == Some(9);
    assert FirstMatch("youtu.be/dQw4w9WgXcQ", 0);
    assert "youtu.be/dQw4w9WgXcQ"[9..20] == "dQw4w9WgXcQ";
    assert NoMatch("v=short");
  }
}
