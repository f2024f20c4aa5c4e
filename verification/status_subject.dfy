/** Reading a router uuid back from the subject of a status message. */
module StatusSubject {
  import opened Wrappers
  import opened Publisher

  const PREFIX := "weft.router."
  const SUFFIX := ".status"

  predicate HasPrefix(s: string, p: string) {
    |p| <= |s| && s[..|p|] == p
  }

  predicate HasSuffix(s: string, p: string) {
    |p| <= |s| && s[|s| - |p|..] == p
  }

  function TrimPrefix(s: string, p: string): string {
    if HasPrefix(s, p) then s[|p|..] else s
  }

  function TrimSuffix(s: string, p: string): string {
    if HasSuffix(s, p) then s[..|s| - |p|] else s
  }

  function UuidFromSubject(subject: string): Option<string> {
    if !HasPrefix(subject, PREFIX) || !HasSuffix(subject, SUFFIX) then None
    else
      var uuid := TrimSuffix(TrimPrefix(subject, PREFIX), SUFFIX);
      if uuid == "" || '.' in uuid then None else Some(uuid)
  }

  function StatusSubjectFor(uuid: string): string {
    PREFIX + uuid + SUFFIX
  }

  /** A single subject token: what the wildcard stands for. */
  predicate IsToken(t: string) {
    t != "" && '.' !in t
  }

  lemma StatusSubjectParts(uuid: string)
    ensures
      var s := StatusSubjectFor(uuid);
      HasPrefix(s, PREFIX) && HasSuffix(s, SUFFIX) && TrimPrefix(s, PREFIX) == uuid + SUFFIX
      && TrimSuffix(uuid + SUFFIX, SUFFIX) == uuid
  {
    var s := StatusSubjectFor(uuid);
    assert s[..|PREFIX|] == PREFIX;
    assert s == (PREFIX + uuid) + SUFFIX;
    assert s[|s| - |SUFFIX|..] == SUFFIX;
    assert s[|PREFIX|..] == uuid + SUFFIX;
  }

  /** Every accepted subject is the status subject of the token it yields, save one three-token subject. */
  lemma AcceptedShape(subject: string, uuid: string)
    requires UuidFromSubject(subject) == Some(uuid)
    ensures IsToken(uuid) &&
      (subject == StatusSubjectFor(uuid) || (subject == "weft.router.status" && uuid == "status"))
  {
    var rest := TrimPrefix(subject, PREFIX);
    assert subject == PREFIX + rest;
    if HasSuffix(rest, SUFFIX) {
      assert rest == uuid + SUFFIX;
      assert subject == StatusSubjectFor(uuid);
    } else {
      // The suffix reaches back into the prefix, so the two share the dot.
      assert rest == uuid;
      assert |rest| <= 6;
      var tail := subject[|subject| - 7..];
      assert tail == SUFFIX;
      assert forall i :: 0 <= i < |rest| ==> rest[i] == tail[7 - |rest| + i];
      assert |rest| < 6 ==> tail[0] == subject[|subject| - 7];
      ShortRest(rest, subject);
    }
  }

  lemma ShortRest(rest: string, subject: string)
    requires subject == PREFIX + rest && 0 < |rest| <= 6 && HasSuffix(subject, SUFFIX)
    ensures rest == "status"
  {
    var n := |subject|;
    assert subject[n - 7..][0] == '.';
    assert subject[n - 7] == '.';
    assert PREFIX[4] == '.' && PREFIX[11] == '.';
    assert n - 7 == 5 + |rest|;
    assert subject[5 + |rest|] == PREFIX[5 + |rest|];
    assert |rest| == 6;
    assert rest == subject[n - 6..];
    assert subject[n - 7..][1..] == subject[n - 6..];
    assert SUFFIX[1..] == "status";
  }

  /**
   The parser inverts the status subject of every token. What it accepts is exactly those subjects and, because
   prefix and suffix may share a dot, the three-token `weft.router.status`, which the four-token wildcard never
   delivers.
   */
  lemma UuidFromSubjectMeaning(subject: string, uuid: string)
    ensures UuidFromSubject(subject) == Some(uuid) <==>
      || (IsToken(uuid) && subject == StatusSubjectFor(uuid))
      || (subject == "weft.router.status" && uuid == "status")
  {
    if UuidFromSubject(subject) == Some(uuid) {
      AcceptedShape(subject, uuid);
    }
    if IsToken(uuid) && subject == StatusSubjectFor(uuid) {
      StatusSubjectParts(uuid);
    }
    if subject == "weft.router.status" {
      assert subject[..12] == PREFIX && subject[11..] == SUFFIX && subject[12..] == "status";
    }
  }

  /** No router's own configuration subject is mistaken for a status message. */
  lemma ConfigSubjectRejected(uuid: string)
    ensures UuidFromSubject(SubjectFor(uuid)) == None
  {
    var s := SubjectFor(uuid);
    assert s[|s| - 1] == 'g';
    assert s[|s| - 7..][6] == 'g';
    assert SUFFIX[6] == 's';
  }
}
