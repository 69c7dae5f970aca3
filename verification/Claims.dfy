/** Requests that resolve a code: claims, leases, and the segments they serve. */
module Claiming {
  import opened Outcomes
  import opened Protocol
  import opened Storage
  import opened Lifecycle
  import opened Safety
  import opened MetadataStore
  import opened FileLayout
  import opened Caching
  import opened Serving

  datatype Answer<T> = Ok(value: T) | Err(error: ErrorCode)

  /** A row that may be claimed right now. */
  predicate Claimable(s: Sys, id: string) {
    RowIn(s, id, Committed) && (var e := s.disk.rows[id].expiresAt; e.Some? ==> Before(s.now, e.value))
  }

  // Single steps

  method StepExpireOne(svc: Service, id: string)
    requires svc.Valid() && svc.ready && EnabledServe(svc.cfg, svc.Current(), id, ExpireOne)
    modifies svc, svc.store, svc.layout, svc.manifests
    ensures svc.Valid() && svc.history == old(svc.history) + [svc.Current()]
    ensures svc.Current() == OnRows(old(svc.Current()), WithState(old(svc.store.rows), id, Expired))
  {
    hide IsRun, Coherent;
    ghost var before := svc.Current();
    svc.store.SetState(id, Expired);
    svc.Record(before, Serve(id, ExpireOne));
  }

  method StepOpenClaim(svc: Service, cid: string, claim: Claim)
    requires svc.Valid() && svc.ready && EnabledClaim(svc.cfg, svc.Current(), cid, OpenClaim(claim))
    modifies svc, svc.store, svc.layout, svc.manifests
    ensures svc.Valid() && svc.history == old(svc.history) + [svc.Current()]
    ensures svc.Current() == OnDisk(old(svc.Current()), old(svc.DiskNow()).(claims := old(svc.store.claims)[cid := claim]))
  {
    hide IsRun, Coherent;
    ghost var before := svc.Current();
    svc.store.CreateClaim(cid, claim);
    svc.Record(before, OnClaim(cid, OpenClaim(claim)));
  }

  function Renewed(c: Config, claims: Claims, cid: string, now: int): Claims
    requires cid in claims
  {
    if claims[cid].completedAt.Some? then claims
    else claims[cid := claims[cid].(leaseUntil := LeaseEnd(c, Remote, now))]
  }

  method StepRenew(svc: Service, cid: string)
    requires svc.Valid() && svc.ready && EnabledClaim(svc.cfg, svc.Current(), cid, RenewClaim)
    modifies svc, svc.store, svc.layout, svc.manifests
    ensures svc.Valid() && svc.history == old(svc.history) + [svc.Current()]
    ensures cid in old(svc.store.claims)
    ensures svc.Current() == OnDisk(old(svc.Current()), old(svc.DiskNow()).(claims := Renewed(svc.cfg, old(svc.store.claims), cid, svc.now)))
  {
    hide IsRun, Coherent;
    ghost var before := svc.Current();
    svc.store.SetLease(cid, Unix(svc.now + REMOTE_LEASE));
    svc.Record(before, OnClaim(cid, RenewClaim));
  }

  method StepComplete(svc: Service, cid: string)
    requires svc.Valid() && svc.ready && EnabledClaim(svc.cfg, svc.Current(), cid, CompleteClaim)
    modifies svc, svc.store, svc.layout, svc.manifests
    ensures svc.Valid() && svc.history == old(svc.history) + [svc.Current()]
    ensures cid in old(svc.store.claims)
    ensures svc.Current() == OnDisk(old(svc.Current()), old(svc.DiskNow()).(claims :=
              old(svc.store.claims)[cid := old(svc.store.claims)[cid].(completedAt := Some(Unix(svc.now)))]))
  {
    hide IsRun, Coherent;
    ghost var before := svc.Current();
    svc.store.FinishClaim(cid, Unix(svc.now));
    svc.Record(before, OnClaim(cid, CompleteClaim));
  }

  // Requests

  /** The code names a transfer that is past serving. */
  ghost predicate NamesExpired(s: Sys, code: string) {
    exists id | id in s.disk.rows ::
      && s.disk.rows[id].code == Some(code)
      && (var st := s.disk.rows[id].state;
          st.Expired? || st.Deleting? || st.Deleted? || (st.Committed? && !Claimable(s, id)))
  }

  /** Why a code does not resolve. */
  ghost function CodeFault(s: Sys, code: string): ErrorCode {
    if NamesExpired(s, code) then TransferExpired else TransferNotFound
  }

  /** Resolves a canonical code. Expiry counts from its second on, even before the
      janitor notices, and is then recorded. */
  method LookupCommitted(svc: Service, code: string) returns (r: Answer<string>)
    requires svc.Valid() && svc.ready && Inv(svc.cfg, svc.Current())
    modifies svc, svc.store, svc.layout, svc.manifests
    ensures svc.Valid() && old(svc.history) <= svc.history
    ensures r.Ok? ==> svc.Current() == old(svc.Current()) && Claimable(svc.Current(), r.value)
                      && svc.store.rows[r.value].code == Some(code)
    ensures r.Err? ==> forall id | Claimable(old(svc.Current()), id) :: old(svc.store.rows)[id].code != Some(code)
    ensures r.Err? ==> r.error == CodeFault(old(svc.Current()), code)
    ensures r.Err? ==> svc.Current() == old(svc.Current())
                       || exists id | id in old(svc.store.rows) ::
                            svc.Current() == OnRows(old(svc.Current()), WithState(old(svc.store.rows), id, Expired))
                            && !Claimable(old(svc.Current()), id)
    ensures forall id | id in old(svc.store.rows) && old(svc.store.rows)[id].code == Some(code) ::
              var row := old(svc.store.rows)[id];
              r == if row.state == Committed && (row.expiresAt.None? || svc.now < 1_000_000_000 * row.expiresAt.value) then Ok(id)
                   else if row.state in {Committed, Expired, Deleting, Deleted} then Err(TransferExpired)
                   else Err(TransferNotFound)
    ensures (forall id | id in old(svc.store.rows) :: old(svc.store.rows)[id].code != Some(code)) ==> r == Err(TransferNotFound)
  {
    hide IsRun, Coherent, CellsOK, ClaimsOK;
    var found := svc.store.GetTransferByCode(code);
    if found.None? {
      return Err(TransferNotFound);
    }
    var (id, t) := found.value;
    if t.state.Expired? || t.state.Deleting? || t.state.Deleted? {
      return Err(TransferExpired);
    }
    if !t.state.Committed? {
      return Err(TransferNotFound);
    }
    if t.expiresAt.Some? && !Before(svc.now, t.expiresAt.value) {
      StepExpireOne(svc, id);
      return Err(TransferExpired);
    }
    r := Ok(id);
  }

  /** Adding whole minutes to the clock adds their seconds. */
  lemma LeaseInSeconds(now: int, minutes: int)
    ensures Unix(now + minutes * MINUTE) == now / 1_000_000_000 + 60 * minutes
  {
    assert now + minutes * MINUTE == now + (60 * minutes) * 1_000_000_000;
  }

  lemma RemoteLeaseInSeconds(c: Config, now: int)
    ensures LeaseEnd(c, Remote, now) == now / 1_000_000_000 + 1800
  {
    LeaseInSeconds(now, 30);
  }

  lemma ClaimableIsComplete(c: Config, s: Sys, id: string)
    requires Inv(c, s) && (RowIn(s, id, Committed) || RowIn(s, id, Expired))
    ensures id in s.disk.live && Complete(s.disk.live[id])
    ensures id in s.cache ==> s.disk.live[id].manifest == Some(s.cache[id])
  {
    hide Complete, RecordsAsk;
    assert CellOK(c, View(s, id));
  }

  /** The manifest of a committed or expired transfer, from memory or from disk. */
  method ManifestOf(svc: Service, id: string) returns (m: Manifest)
    requires svc.Valid() && svc.ready && Inv(svc.cfg, svc.Current())
    requires RowIn(svc.Current(), id, Committed) || RowIn(svc.Current(), id, Expired)
    modifies svc, svc.store, svc.layout, svc.manifests
    ensures svc.Valid() && old(svc.history) <= svc.history
    ensures svc.Current() == old(svc.Current()).(cache := svc.manifests.items)
    ensures id in svc.layout.live && svc.layout.live[id].manifest == Some(m) && Complete(svc.layout.live[id])
  {
    hide IsRun, Coherent, Inv, Matches;
    ClaimableIsComplete(svc.cfg, svc.Current(), id);
    var cached := svc.manifests.Get(id);
    if cached.Some? {
      m := cached.value;
    } else {
      m := svc.layout.live[id].manifest.value;
      svc.StepCachePut(id, m);
    }
  }

  /** Opens a remote session under a fresh identifier and token. */
  method CreateClaim(svc: Service, code: string, cid: string, token: string) returns (r: Answer<(Claim, Manifest)>)
    requires svc.Valid() && svc.ready && Inv(svc.cfg, svc.Current()) && cid !in svc.store.claims
    modifies svc, svc.store, svc.layout, svc.manifests
    ensures svc.Valid() && old(svc.history) <= svc.history
    ensures r.Ok? <==> exists id | id in old(svc.store.rows) :: Claimable(old(svc.Current()), id) && old(svc.store.rows)[id].code == Some(code)
    ensures r.Ok? ==>
              var (claim, m) := r.value;
              && Claimable(svc.Current(), claim.transferId) && svc.store.rows[claim.transferId].code == Some(code)
              && claim == Claim(claim.transferId, Remote, Unix(svc.now), LeaseEnd(svc.cfg, Remote, svc.now), None, Some(token))
              && svc.DiskNow() == old(svc.DiskNow()).(claims := old(svc.store.claims)[cid := claim])
              && claim.leaseUntil == svc.now / 1_000_000_000 + 1800 && claim.createdAt == svc.now / 1_000_000_000
              && claim.transferId in svc.layout.live && svc.layout.live[claim.transferId].manifest == Some(m)
              && Complete(svc.layout.live[claim.transferId])
    ensures r.Err? ==> svc.store.claims == old(svc.store.claims) && r.error == CodeFault(old(svc.Current()), code)
  {
    hide IsRun, Coherent, Inv, Complete, NamesExpired;
    var found := LookupCommitted(svc, code);
    if found.Err? {
      return Err(found.error);
    }
    var id := found.value;
    var m := ManifestOf(svc, id);
    var claim := Claim(id, Remote, Unix(svc.now), Unix(svc.now + REMOTE_LEASE), None, Some(token));
    RemoteLeaseInSeconds(svc.cfg, svc.now);
    StepOpenClaim(svc, cid, claim);
    r := Ok((claim, m));
  }

  /** Hands a receiver on the same machine the payload directory itself, under a
      grace lease that nothing can renew. */
  method LocalPath(svc: Service, code: string, cid: string) returns (r: Answer<string>)
    requires svc.Valid() && svc.ready && Inv(svc.cfg, svc.Current()) && cid !in svc.store.claims
    modifies svc, svc.store, svc.layout, svc.manifests
    ensures svc.Valid() && old(svc.history) <= svc.history
    ensures r.Ok? ==>
              && Claimable(svc.Current(), r.value) && svc.store.rows[r.value].code == Some(code)
              && r.value in svc.layout.live && Complete(svc.layout.live[r.value])
              && svc.DiskNow() == old(svc.DiskNow()).(claims := old(svc.store.claims)[cid :=
                   Claim(r.value, Local, Unix(svc.now), LeaseEnd(svc.cfg, Local, svc.now), None, None)])
              && svc.store.claims[cid].leaseUntil == svc.now / 1_000_000_000 + 60 * svc.cfg.localGraceMinutes
    ensures r.Ok? <==> exists id | id in old(svc.store.rows) :: Claimable(old(svc.Current()), id) && old(svc.store.rows)[id].code == Some(code)
    ensures r.Err? ==> svc.store.claims == old(svc.store.claims) && r.error == CodeFault(old(svc.Current()), code)
  {
    hide IsRun, Coherent, Inv, Complete, NamesExpired;
    r := LookupCommitted(svc, code);
    if r.Err? {
      return;
    }
    ClaimableIsComplete(svc.cfg, svc.Current(), r.value);
    var lease := Unix(svc.now + svc.cfg.localGraceMinutes * MINUTE);
    LeaseInSeconds(svc.now, svc.cfg.localGraceMinutes);
    StepOpenClaim(svc, cid, Claim(r.value, Local, Unix(svc.now), lease, None, None));
  }

  /** The claim a bearer token opens, while its lease runs. */
  method AuthorizeClaim(svc: Service, cid: string, token: string) returns (r: Answer<Claim>)
    ensures r.Ok? <==> cid in svc.store.claims && svc.store.claims[cid].token == Some(token)
                       && Before(svc.now, svc.store.claims[cid].leaseUntil)
    ensures r.Ok? <==> cid in svc.store.claims && svc.store.claims[cid].token == Some(token)
                       && svc.now < 1_000_000_000 * svc.store.claims[cid].leaseUntil
    ensures r.Ok? ==> r.value == svc.store.claims[cid]
    ensures r.Err? ==> r.error == if cid !in svc.store.claims then TransferNotFound
                                  else if svc.store.claims[cid].token != Some(token) then AuthInvalid
                                  else ClaimExpired
  {
    if cid !in svc.store.claims {
      return Err(TransferNotFound);
    }
    var claim := svc.store.claims[cid];
    if claim.token != Some(token) {
      return Err(AuthInvalid);
    }
    if !Before(svc.now, claim.leaseUntil) {
      return Err(ClaimExpired);
    }
    r := Ok(claim);
  }

  /** A held claim is remote, and its transfer was committed. */
  lemma HeldClaim(c: Config, s: Sys, cid: string, token: string)
    requires Inv(c, s) && cid in s.disk.claims && s.disk.claims[cid].token == Some(token)
    ensures var claim := s.disk.claims[cid];
            && claim.kind.Remote? && claim.transferId in s.disk.rows && Coded(s.disk.rows[claim.transferId].state)
            && (claim.completedAt.None? && Before(s.now, claim.leaseUntil) ==>
                  RowIn(s, claim.transferId, Committed) || RowIn(s, claim.transferId, Expired))
  {
    assert ClaimOK(s, s.disk.claims[cid]);
    SecondsAgree(s.now, s.disk.claims[cid].leaseUntil);
  }

  lemma StoredIsDeclared(dir: Dir, m: Manifest, seg: Segment)
    requires Complete(dir) && dir.manifest == Some(m) && seg in m.segments
    ensures Serves(dir, seg)
  {
    hide Valid, Serves;
  }

  /** Serves one segment to a claim holder and renews the lease. What is served has
      the size and digest the manifest declares; a holder of an unfinished claim is
      only ever turned away for naming a segment the manifest does not have. */
  method ClaimSegmentFile(svc: Service, cid: string, token: string, segmentId: string) returns (r: Answer<Bytes>)
    requires svc.Valid() && svc.ready && Inv(svc.cfg, svc.Current())
    modifies svc, svc.store, svc.layout, svc.manifests
    ensures svc.Valid() && old(svc.history) <= svc.history
    ensures r.Ok? ==>
              && cid in old(svc.store.claims) && old(svc.store.claims)[cid].token == Some(token)
              && Before(svc.now, old(svc.store.claims)[cid].leaseUntil)
              && (var id := old(svc.store.claims)[cid].transferId;
                  && id in svc.layout.live && svc.layout.live[id].manifest.Some?
                  && var seg := FindSegment(svc.layout.live[id].manifest.value.segments, segmentId);
                  seg.Some? && |r.value| == seg.value.wireSize && seg.value.digest == Blake3(r.value))
              && svc.DiskNow() == old(svc.DiskNow()).(claims := Renewed(svc.cfg, old(svc.store.claims), cid, svc.now))
              && svc.store.claims == old(svc.store.claims)[cid := svc.store.claims[cid]]
              && svc.store.claims[cid] == old(svc.store.claims)[cid].(leaseUntil :=
                   if old(svc.store.claims)[cid].completedAt.Some? then old(svc.store.claims)[cid].leaseUntil
                   else svc.now / 1_000_000_000 + 1800)
    ensures r.Err? ==> svc.DiskNow() == old(svc.DiskNow())
    ensures r.Err? && cid in svc.store.claims && svc.store.claims[cid].token == Some(token)
            && Before(svc.now, svc.store.claims[cid].leaseUntil) && svc.store.claims[cid].completedAt.None? ==>
              var id := svc.store.claims[cid].transferId;
              && id in svc.layout.live && svc.layout.live[id].manifest.Some?
              && FindSegment(svc.layout.live[id].manifest.value.segments, segmentId).None?
  {
    hide IsRun, Coherent, Inv, Complete, Serves;
    var claim := AuthorizeClaim(svc, cid, token);
    if claim.Err? {
      return Err(claim.error);
    }
    HeldClaim(svc.cfg, svc.Current(), cid, token);
    var id := claim.value.transferId;
    if svc.store.rows[id].state.Deleting? || svc.store.rows[id].state.Deleted? {
      return Err(TransferExpired);
    }
    var m := ManifestOf(svc, id);
    var seg := FindSegment(m.segments, segmentId);
    if seg.None? {
      return Err(TransferNotFound);
    }
    StoredIsDeclared(svc.layout.live[id], m, seg.value);
    var data := ServedBytes(svc.layout.live[id], seg.value);
    StepRenew(svc, cid);
    RemoteLeaseInSeconds(svc.cfg, svc.now);
    r := Ok(data);
  }

  /** The bytes behind a segment's storage path. */
  function ServedBytes(dir: Dir, seg: Segment): (data: Bytes)
    requires Serves(dir, seg)
    ensures |data| == seg.wireSize && seg.digest == Blake3(data)
  {
    Stored(dir, seg.storagePath).value
  }

  /** Completion is recorded and consumes nothing. */
  method FinishClaim(svc: Service, cid: string, token: string) returns (err: Option<ErrorCode>)
    requires svc.Valid() && svc.ready && Inv(svc.cfg, svc.Current())
    modifies svc, svc.store, svc.layout, svc.manifests
    ensures svc.Valid() && old(svc.history) <= svc.history
    ensures err.None? <==> cid in old(svc.store.claims) && old(svc.store.claims)[cid].token == Some(token)
                           && Before(svc.now, old(svc.store.claims)[cid].leaseUntil)
    ensures svc.DiskNow() == if err.Some? then old(svc.DiskNow()) else
              old(svc.DiskNow()).(claims := old(svc.store.claims)[cid :=
                old(svc.store.claims)[cid].(completedAt := Some(Unix(svc.now)))])
  {
    hide IsRun, Coherent, Inv;
    var claim := AuthorizeClaim(svc, cid, token);
    if claim.Err? {
      return Some(claim.error);
    }
    HeldClaim(svc.cfg, svc.Current(), cid, token);
    StepComplete(svc, cid);
    err := None;
  }
}
