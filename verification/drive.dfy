/** Extraction of the folder id from a Google Drive folder URL
    (`extract_folder_id_from_url`, gdrive.py:39-49).

  The regular expression `/folders/([a-zA-Z0-9_-]+)` is searched for; since
  the group is greedy and nothing follows it, a match starts exactly where
  `/folders/` is followed by an id character, the leftmost such place wins,
  and the group runs to the end of the id characters.
 */
module Drive {
  import opened Wrappers
  import opened Text

  const Marker := "/folders/"

  /** The character class `[a-zA-Z0-9_-]`. */
  predicate IsIdChar(c: char) {
    ('a' <= c <= 'z') || ('A' <= c <= 'Z') || ('0' <= c <= '9') || c == '_' || c == '-'
  }

  /** The pattern matches at position `p`: the marker, then an id character. */
  predicate Qualifies(url: string, p: nat) {
    OccursAt(url, Marker, p) && p + |Marker| < |url| && IsIdChar(url[p + |Marker|])
  }

  /** End of the run of id characters starting at `i`. */
  function IdEnd(url: string, i: nat): (e: nat)
    requires i <= |url|
    ensures i <= e <= |url|
    decreases |url| - i
  {
    if i < |url| && IsIdChar(url[i]) then IdEnd(url, i + 1) else i
  }

  /** The first position at or after `p` where the pattern matches. */
  function MatchFrom(url: string, p: nat): (r: Option<nat>)
    requires p <= |url|
    ensures r.Some? ==> p <= r.value < |url| && Qualifies(url, r.value)
    decreases |url| - p
  {
    if p == |url| then None
    else if Qualifies(url, p) then Some(p)
    else MatchFrom(url, p + 1)
  }

  /** `extract_folder_id_from_url`: `match.group(1)`, or `None` without a match. */
  function FolderId(url: string): Option<string> {
    match MatchFrom(url, 0)
    case None => None
    case Some(p) =>
      var start := p + |Marker|;
      Some(url[start..IdEnd(url, start)])
  }

  lemma {:induction false} IdEndShape(url: string, i: nat)
    requires i <= |url|
    ensures forall k :: i <= k < IdEnd(url, i) ==> IsIdChar(url[k])
    ensures IdEnd(url, i) == |url| || !IsIdChar(url[IdEnd(url, i)])
    decreases |url| - i
  {
    if i < |url| && IsIdChar(url[i]) {
      IdEndShape(url, i + 1);
    }
  }

  /** The scan finds the leftmost matching position, and none exactly when no
      position at or after `p` matches. */
  lemma {:induction false} MatchFromShape(url: string, p: nat)
    requires p <= |url|
    ensures MatchFrom(url, p).None? <==> forall q :: p <= q < |url| ==> !Qualifies(url, q)
    ensures MatchFrom(url, p).Some? ==>
              var q := MatchFrom(url, p).value;
              forall q' :: p <= q' < q ==> !Qualifies(url, q')
    decreases |url| - p
  {
    if p < |url| && !Qualifies(url, p) {
      MatchFromShape(url, p + 1);
    }
  }

  /** There is no folder id exactly when no `/folders/` is immediately followed
      by an id character. */
  lemma {:induction false} FolderIdNone(url: string)
    ensures FolderId(url).None? <==> forall p :: 0 <= p < |url| ==> !Qualifies(url, p)
  {
    MatchFromShape(url, 0);
  }

  /** A folder id is a non-empty run of id characters that starts right after
      the leftmost qualifying `/folders/` (so it is preceded by the marker in
      the URL), and cannot be extended. */
  lemma {:induction false} FolderIdShape(url: string)
    requires FolderId(url).Some?
    ensures var p, id := MatchFrom(url, 0).value, FolderId(url).value;
      && Qualifies(url, p) && url[p..p + |Marker|] == Marker
      && (forall q :: 0 <= q < p ==> !Qualifies(url, q))
      && id != []
      && (forall k :: 0 <= k < |id| ==> IsIdChar(id[k]))
      && p + |Marker| + |id| <= |url|
      && url[p + |Marker|..p + |Marker| + |id|] == id
      && (p + |Marker| + |id| == |url| || !IsIdChar(url[p + |Marker| + |id|]))
  {
    MatchFromShape(url, 0);
    var p := MatchFrom(url, 0).value;
    var start := p + |Marker|;
    IdEndShape(url, start);
    var id := FolderId(url).value;
    assert id == url[start..IdEnd(url, start)];
    assert forall k :: 0 <= k < |id| ==> id[k] == url[start + k];
  }

  /** A shared-folder link yields the id before its query string. */
  lemma SharedLinkExample()
    ensures FolderId("d/folders/a-1?u") == Some("a-1")
  {
    var url := "d/folders/a-1?u";
    assert !Qualifies(url, 0);
    assert url[1..10] == Marker;
    assert Qualifies(url, 1);
    assert MatchFrom(url, 0) == Some(1);
    assert IdEnd(url, 10) == 13;
    assert url[10..13] == "a-1";
  }
}
