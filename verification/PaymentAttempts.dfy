/** The in-place sort of payment attempts, newest first, and what it means for "the latest attempt". */
module PaymentAttempts {
  import opened Wrappers
  import opened Entities
  import opened Registrations

  predicate NewestFirst(s: seq<Attempt>) {
    forall i, j | 0 <= i < j < |s| :: s[i].uploadedAt >= s[j].uploadedAt
  }

  function Reversed<T>(s: seq<T>): (r: seq<T>)
    ensures |r| == |s|
    ensures forall i | 0 <= i < |s| :: r[i] == s[|s| - 1 - i]
  {
    seq(|s|, i requires 0 <= i < |s| => s[|s| - 1 - i])
  }

  /** `attempts.sort((a, b) => b.uploadedAt - a.uploadedAt)`. */
  method SortNewestFirst(a: array<Attempt>)
    modifies a
    ensures NewestFirst(a[..])
    ensures multiset(a[..]) == multiset(old(a[..]))
  {
    var n := 0;
    while n < a.Length
      invariant 0 <= n <= a.Length
      invariant NewestFirst(a[..n])
      invariant multiset(a[..]) == multiset(old(a[..]))
    {
      SinkLast(a, n);
      n := n + 1;
    }
    assert a[..n] == a[..];
  }

  method Swap(a: array<Attempt>, i: nat, j: nat)
    requires i < j < a.Length
    modifies a
    ensures a[..] == old(a[..])[i := old(a[j])][j := old(a[i])]
    ensures multiset(a[..]) == multiset(old(a[..]))
  {
    a[i], a[j] := a[j], a[i];
  }

  /** Moves `a[n]` to its place among the sorted first `n`. */
  method SinkLast(a: array<Attempt>, n: nat)
    requires n < a.Length && NewestFirst(a[..n])
    modifies a
    ensures NewestFirst(a[..n + 1])
    ensures multiset(a[..]) == multiset(old(a[..]))
  {
    var k := n;
    while k > 0 && a[k - 1].uploadedAt < a[k].uploadedAt
      invariant 0 <= k <= n
      invariant forall i, j | 0 <= i < j <= n && j != k :: a[i].uploadedAt >= a[j].uploadedAt
      invariant multiset(a[..]) == multiset(old(a[..]))
    {
      ghost var before := a[..];
      Swap(a, k - 1, k);
      assert forall i | 0 <= i <= n :: a[i] == a[..][i];
      k := k - 1;
    }
  }

  /** With strictly increasing upload times there is one newest-first order: the reverse of upload order,
      whatever order the database returned the rows in. */
  lemma {:induction false} SortedIsReversed(stored: seq<Attempt>, sorted: seq<Attempt>)
    requires Chronological(stored) && NewestFirst(sorted) && multiset(sorted) == multiset(stored)
    ensures sorted == Reversed(stored)
  {
    SameLength(stored, sorted);
    if stored != [] {
      var n := |stored| - 1;
      FirstIsLatest(stored, sorted);
      RestMatches(stored, sorted);
      SortedIsReversed(stored[..n], sorted[1..]);
    }
  }

  lemma SameLength(s: seq<Attempt>, t: seq<Attempt>)
    requires multiset(s) == multiset(t)
    ensures |s| == |t|
  {
    assert |multiset(s)| == |s| && |multiset(t)| == |t|;
  }

  lemma RestMatches(stored: seq<Attempt>, sorted: seq<Attempt>)
    requires stored != [] && sorted != [] && sorted[0] == LastOf(stored)
    requires multiset(sorted) == multiset(stored)
    ensures multiset(sorted[1..]) == multiset(stored[..|stored| - 1])
  {
    assert stored == stored[..|stored| - 1] + [LastOf(stored)];
    assert sorted == [sorted[0]] + sorted[1..];
    assert multiset(sorted[1..]) == multiset(sorted) - multiset{sorted[0]};
  }

  lemma FirstIsLatest(stored: seq<Attempt>, sorted: seq<Attempt>)
    requires Chronological(stored) && NewestFirst(sorted) && multiset(sorted) == multiset(stored)
    requires stored != [] && sorted != []
    ensures sorted[0] == LastOf(stored)
  {
    var last := LastOf(stored);
    assert last in multiset(stored);
    assert last in sorted;
    assert sorted[0] in multiset(sorted);
    assert sorted[0] in stored;
  }

  /** Without distinct times "the latest attempt" is not determined: the rows of one registration can
      come back in two orders that are both newest first, with different attempts in front. */
  lemma TiesLeaveLatestOpen(a: Attempt, b: Attempt)
    requires a != b
    ensures a.uploadedAt == b.uploadedAt <==>
      exists s, s' :: multiset(s) == multiset(s') == multiset{a, b} && NewestFirst(s) && NewestFirst(s') && s != s'
  {
    var s, s' := [a, b], [b, a];
    assert multiset(s) == multiset(s') == multiset{a, b};
    if a.uploadedAt == b.uploadedAt {
      assert NewestFirst(s) && NewestFirst(s') && s[0] != s'[0];
    } else {
      var stored := if a.uploadedAt < b.uploadedAt then s else s';
      assert multiset(stored) == multiset{a, b} && Chronological(stored);
      forall t | multiset(t) == multiset{a, b} && NewestFirst(t) ensures t == Reversed(stored) {
        SortedIsReversed(stored, t);
      }
    }
  }

  // ---------- the response of a payment request ----------

  datatype AttemptDto = AttemptDto(
    id: Id,
    proofOfPaymentUrl: string,
    status: AttemptStatus,
    rejectionReason: Option<string>,
    verifiedAt: Option<Time>,
    uploadedAt: Time)

  /** The payment part of the response; the names and contact details of the people are not modelled. */
  datatype Response = Response(
    status: RegistrationStatus,
    proofOfPaymentUrl: Option<string>,
    proofUploadedAt: Option<Time>,
    verificationNote: Option<string>,
    verifiedAt: Option<Time>,
    paymentAttempts: seq<AttemptDto>,
    whatsappGroupUrl: Option<string>)

  function ToAttemptDto(a: Attempt): AttemptDto {
    AttemptDto(a.id, a.proofOfPaymentUrl, a.status, a.rejectionReason, a.verifiedAt, a.uploadedAt)
  }

  /** The response shows every stored attempt, the latest first; the head of the response repeats the
      latest attempt; the group link is there when the registration is verified. */
  ghost predicate Shows(response: Response, r: Registration, c: Competition) {
    && response.status == r.status
    && |response.paymentAttempts| == |r.attempts|
    && (forall i | 0 <= i < |r.attempts| ::
          response.paymentAttempts[i] == ToAttemptDto(r.attempts[|r.attempts| - 1 - i]))
    && (r.attempts == [] ==>
          && response.proofOfPaymentUrl.None? && response.proofUploadedAt.None?
          && response.verificationNote.None? && response.verifiedAt.None?)
    && (r.attempts != [] ==>
          var latest := LastOf(r.attempts);
          && response.proofOfPaymentUrl == Some(latest.proofOfPaymentUrl)
          && response.proofUploadedAt == Some(latest.uploadedAt)
          && response.verificationNote == latest.rejectionReason
          && response.verifiedAt == latest.verifiedAt)
    && (response.whatsappGroupUrl ==
          if r.status == Verified && c.whatsappGroupUrl != Some("") then c.whatsappGroupUrl else None)
  }

  method MapAttempts(rows: array<Attempt>) returns (attempts: seq<AttemptDto>)
    ensures |attempts| == rows.Length
    ensures forall i | 0 <= i < rows.Length :: attempts[i] == ToAttemptDto(rows[i])
  {
    attempts := [];
    for i := 0 to rows.Length
      invariant |attempts| == i && forall j | 0 <= j < i :: attempts[j] == ToAttemptDto(rows[j])
    {
      attempts := attempts + [ToAttemptDto(rows[i])];
    }
  }

  /** The mapper sorts the rows it was given, in place, and fills the response from the first one. */
  method ToResponse(r: Registration, c: Competition, rows: array<Attempt>) returns (dto: Response)
    requires Chronological(r.attempts) && multiset(rows[..]) == multiset(r.attempts)
    modifies rows
    ensures Shows(dto, r, c)
    ensures rows[..] == Reversed(r.attempts)
  {
    SortNewestFirst(rows);
    SortedIsReversed(r.attempts, rows[..]);
    var url, at, note, verified := None, None, None, None;
    if rows.Length > 0 {
      var latest := rows[0];
      url := Some(latest.proofOfPaymentUrl);
      at := Some(latest.uploadedAt);
      note := latest.rejectionReason;
      verified := latest.verifiedAt;
    }
    var attempts := MapAttempts(rows);
    var link := None;
    if r.status == Verified && c.whatsappGroupUrl.Some? && c.whatsappGroupUrl.value != "" {
      link := c.whatsappGroupUrl;
    }
    dto := Response(r.status, url, at, note, verified, attempts, link);
  }

  /** The response has every attempt with its columns, the last uploaded one first and again in the head. */
  lemma ResponseShowsAttempts(r: Registration, c: Competition, response: Response, i: nat)
    requires Shows(response, r, c) && i < |r.attempts|
    ensures |response.paymentAttempts| == |r.attempts| && response.status == r.status
    ensures
      var shown, a := response.paymentAttempts[i], r.attempts[|r.attempts| - 1 - i];
      && shown.id == a.id && shown.proofOfPaymentUrl == a.proofOfPaymentUrl && shown.status == a.status
      && shown.rejectionReason == a.rejectionReason && shown.verifiedAt == a.verifiedAt
      && shown.uploadedAt == a.uploadedAt
    ensures
      var last := r.attempts[|r.attempts| - 1];
      && response.proofOfPaymentUrl == Some(last.proofOfPaymentUrl) && response.proofUploadedAt == Some(last.uploadedAt)
      && response.verificationNote == last.rejectionReason && response.verifiedAt == last.verifiedAt
  {
  }

  /** After a decision the response shows first the attempt just decided, with the request's note and its
      time to the second; its fate is the status; and the group link is there exactly when the payment was
      approved and the competition has a link. */
  lemma ResponseShowsDecision(r: Registration, c: Competition, treasurer: Id, dto: VerifyDto, now: Time,
                              response: Response)
    requires Coupled(r) && r.attempts != [] && !NoteMissing(dto)
    requires Shows(response, Decided(r, treasurer, dto, now), c)
    ensures
      var first := response.paymentAttempts[0];
      && first.id == LastOf(r.attempts).id && first.uploadedAt == LastOf(r.attempts).uploadedAt
      && first.proofOfPaymentUrl == LastOf(r.attempts).proofOfPaymentUrl
      && first.rejectionReason == dto.note && first.verifiedAt == Some(WholeSecond(now))
      && first.status == (if dto.action.Approve? then AttemptApproved else AttemptRejected)
    ensures LatestStatus(response.status) == Some(response.paymentAttempts[0].status)
    ensures response.verifiedAt == Some(WholeSecond(now)) && response.verificationNote == dto.note
    ensures response.whatsappGroupUrl.Some? <==>
      dto.action.Approve? && c.whatsappGroupUrl.Some? && c.whatsappGroupUrl.value != ""
  {
  }
}
