/** Building the new access control list in `setPermissions`
    (3rdpart/systemkit/src/windows/permission_handler_windows.cpp:781-891): its size is computed first, then
    the old entries are copied and the new ones added into a buffer of exactly that size. SID lookup is
    deterministic, and sizes are far from overflowing a DWORD. */
module Acl {

  /** sizeof(ACL), and the part of an ACE that is not its SID: sizeof(ACCESS_ALLOWED_ACE) - sizeof(DWORD). */
  const ACL_HEADER := 8
  const ACE_FIXED_PART := 8

  datatype Action = Grant | Deny | Revoke

  datatype Permission = Permission(trustee: string, flags: int, mask: int, action: Action)

  type Positive = n: int | n > 0 witness 1

  /** An entry of the old list; `readable` is whether GetAce yields it. */
  datatype OldAce = OldAce(id: nat, size: Positive, readable: bool)

  /** The old list as far as it is to be preserved: none when everything is replaced or there is no DACL. */
  datatype OldDacl = Absent | Present(aces: seq<OldAce>)

  datatype Ace = Copied(id: nat, size: Positive) | Allowed(trustee: string, flags: int, mask: int, size: Positive)
               | Denied(trustee: string, flags: int, mask: int, size: Positive)

  /** What an explicit entry takes for a SID of that length. */
  function EntrySize(sidLength: nat): Positive {
    ACE_FIXED_PART + sidLength
  }

  function Bytes(aces: seq<Ace>): nat {
    if aces == [] then 0 else Bytes(aces[..|aces| - 1]) + aces[|aces| - 1].size
  }

  class NewAcl {
    const capacity: nat
    var aces: seq<Ace>

    function Used(): nat
      reads this
    {
      ACL_HEADER + Bytes(aces)
    }

    constructor (capacity: nat)
      ensures this.capacity == capacity && aces == []
    {
      this.capacity := capacity;
      aces := [];
    }

    /** AddAce and its kin: they fail when the entry does not fit. */
    method Add(ace: Ace) returns (success: bool)
      modifies this
      ensures success <==> old(Used()) + ace.size <= capacity
      ensures aces == if success then old(aces) + [ace] else old(aces)
    {
      success := Used() + ace.size <= capacity;
      if success {
        aces := aces + [ace];
      }
    }
  }

  // ---- What the new list should be ----

  function CopiedAces(old_: seq<OldAce>): seq<Ace> {
    if old_ == [] then []
    else
      var before, x := CopiedAces(old_[..|old_| - 1]), old_[|old_| - 1];
      if x.readable then before + [Copied(x.id, x.size)] else before
  }

  function NewEntry(p: Permission, sidLength: string -> nat): seq<Ace> {
    match p.action
    case Grant => [Allowed(p.trustee, p.flags, p.mask, EntrySize(sidLength(p.trustee)))]
    case Deny => [Denied(p.trustee, p.flags, p.mask, EntrySize(sidLength(p.trustee)))]
    case Revoke => []
  }

  function NewEntries(ps: seq<Permission>, sidLength: string -> nat): seq<Ace> {
    if ps == [] then []
    else NewEntries(ps[..|ps| - 1], sidLength) + NewEntry(ps[|ps| - 1], sidLength)
  }

  // ---- What that means ----

  function Readable(old_: seq<OldAce>): seq<OldAce> {
    if old_ == [] then []
    else Readable(old_[..|old_| - 1]) + if old_[|old_| - 1].readable then [old_[|old_| - 1]] else []
  }

  function NotRevoked(ps: seq<Permission>): seq<Permission> {
    if ps == [] then []
    else NotRevoked(ps[..|ps| - 1]) + if ps[|ps| - 1].action != Revoke then [ps[|ps| - 1]] else []
  }

  /** An entry allows for a grant and denies for a denial, what the permission says to whom it says. */
  predicate Says(ace: Ace, p: Permission) {
    && (ace.Allowed? <==> p.action == Grant)
    && (ace.Denied? <==> p.action == Deny)
    && !ace.Copied? && ace.trustee == p.trustee && ace.flags == p.flags && ace.mask == p.mask
  }

  ghost predicate SaysAll(aces: seq<Ace>, ps: seq<Permission>) {
    |aces| == |ps| && forall i :: 0 <= i < |ps| ==> Says(aces[i], ps[i])
  }

  ghost predicate CopiesAll(aces: seq<Ace>, old_: seq<OldAce>) {
    |aces| == |old_| && forall i :: 0 <= i < |old_| ==> aces[i] == Copied(old_[i].id, old_[i].size)
  }

  lemma {:induction false} CopiedAreReadable(old_: seq<OldAce>)
    ensures CopiesAll(CopiedAces(old_), Readable(old_))
  {
    if old_ == [] {
    } else {
      CopiedAreReadable(old_[..|old_| - 1]);
    }
  }

  lemma {:induction false} EntriesSay(ps: seq<Permission>, sidLength: string -> nat)
    ensures SaysAll(NewEntries(ps, sidLength), NotRevoked(ps))
  {
    if ps == [] {
    } else {
      EntriesSay(ps[..|ps| - 1], sidLength);
    }
  }

  function OldBytes(old_: seq<OldAce>): nat {
    if old_ == [] then 0 else OldBytes(old_[..|old_| - 1]) + old_[|old_| - 1].size
  }

  function PermissionBytes(ps: seq<Permission>, sidLength: string -> nat): nat {
    if ps == [] then 0
    else PermissionBytes(ps[..|ps| - 1], sidLength) + EntrySize(sidLength(ps[|ps| - 1].trustee))
  }

  function OldAces(d: OldDacl): seq<OldAce> {
    if d.Present? then d.aces else []
  }

  /** The size computed up front. AclBytesInUse of the old list is its header and all its entries. */
  function AclSize(ps: seq<Permission>, d: OldDacl, sidLength: string -> nat): nat {
    ACL_HEADER + PermissionBytes(ps, sidLength) + OldBytes(OldAces(d))
  }

  lemma {:induction false} BytesAppend(a: seq<Ace>, b: seq<Ace>)
    ensures Bytes(a + b) == Bytes(a) + Bytes(b)
  {
    if b == [] {
      assert a + b == a;
    } else {
      var n := |b| - 1;
      assert (a + b)[..|a + b| - 1] == a + b[..n];
      BytesAppend(a, b[..n]);
    }
  }

  /** Copying takes no more room than the old entries had, and exactly as much when none is skipped. */
  lemma {:induction false} CopiedFit(old_: seq<OldAce>)
    ensures Bytes(CopiedAces(old_)) <= OldBytes(old_)
    ensures Bytes(CopiedAces(old_)) == OldBytes(old_) <==> forall a :: a in old_ ==> a.readable
  {
    if old_ == [] {
    } else {
      var n := |old_| - 1;
      var before, x := CopiedAces(old_[..n]), old_[n];
      CopiedFit(old_[..n]);
      assert (before + [Copied(x.id, x.size)])[..|before|] == before;
      assert old_ == old_[..n] + [x];
    }
  }

  lemma EntryBytes(p: Permission, sidLength: string -> nat)
    ensures Bytes(NewEntry(p, sidLength)) == if p.action == Revoke then 0 else EntrySize(sidLength(p.trustee))
  {
    if p.action != Revoke {
      assert NewEntry(p, sidLength)[..0] == [];
    }
  }

  predicate NoRevoke(ps: seq<Permission>) {
    forall p :: p in ps ==> p.action != Revoke
  }

  lemma NoRevokeLast(ps: seq<Permission>)
    requires ps != []
    ensures NoRevoke(ps) <==> NoRevoke(ps[..|ps| - 1]) && ps[|ps| - 1].action != Revoke
  {
    assert ps == ps[..|ps| - 1] + [ps[|ps| - 1]];
  }

  lemma {:induction false} EntriesFit(ps: seq<Permission>, sidLength: string -> nat)
    ensures Bytes(NewEntries(ps, sidLength)) <= PermissionBytes(ps, sidLength)
    ensures Bytes(NewEntries(ps, sidLength)) == PermissionBytes(ps, sidLength) <==> NoRevoke(ps)
  {
    if ps == [] {
    } else {
      var init, last := ps[..|ps| - 1], ps[|ps| - 1];
      EntriesFit(init, sidLength);
      BytesAppend(NewEntries(init, sidLength), NewEntry(last, sidLength));
      EntryBytes(last, sidLength);
      NoRevokeLast(ps);
    }
  }

  /** The whole new list against the size computed: it fits, and fills the buffer exactly when no permission
      is a revocation and no old entry was skipped. */
  lemma NewListFits(ps: seq<Permission>, d: OldDacl, sidLength: string -> nat)
    ensures var used := ACL_HEADER + Bytes(CopiedAces(OldAces(d)) + NewEntries(ps, sidLength));
            && used <= AclSize(ps, d, sidLength)
            && (used == AclSize(ps, d, sidLength) <==>
                  NoRevoke(ps) && (forall a :: a in OldAces(d) ==> a.readable))
  {
    BytesAppend(CopiedAces(OldAces(d)), NewEntries(ps, sidLength));
    CopiedFit(OldAces(d));
    EntriesFit(ps, sidLength);
  }

  /** What has been filled in so far never outgrows what was counted for it. */
  lemma {:induction false} OldBytesGrow(old_: seq<OldAce>, i: nat)
    requires i < |old_|
    ensures OldBytes(old_[..i + 1]) == OldBytes(old_[..i]) + old_[i].size
    ensures OldBytes(old_[..i + 1]) <= OldBytes(old_)
    decreases |old_|
  {
    assert old_[..i + 1][..i] == old_[..i];
    if i == |old_| - 1 {
      assert old_[..i + 1] == old_;
    } else {
      OldBytesGrow(old_[..|old_| - 1], i);
      assert old_[..|old_| - 1][..i + 1] == old_[..i + 1] && old_[..|old_| - 1][..i] == old_[..i];
    }
  }

  lemma {:induction false} PermissionBytesGrow(ps: seq<Permission>, i: nat, sidLength: string -> nat)
    requires i < |ps|
    ensures PermissionBytes(ps[..i + 1], sidLength)
            == PermissionBytes(ps[..i], sidLength) + EntrySize(sidLength(ps[i].trustee))
    ensures PermissionBytes(ps[..i + 1], sidLength) <= PermissionBytes(ps, sidLength)
    decreases |ps|
  {
    assert ps[..i + 1][..i] == ps[..i];
    if i == |ps| - 1 {
      assert ps[..i + 1] == ps;
    } else {
      PermissionBytesGrow(ps[..|ps| - 1], i, sidLength);
      assert ps[..|ps| - 1][..i + 1] == ps[..i + 1] && ps[..|ps| - 1][..i] == ps[..i];
    }
  }

  // ---- The loops ----

  method ComputeSize(ps: seq<Permission>, d: OldDacl, sidLength: string -> nat) returns (aclSize: nat)
    ensures aclSize == AclSize(ps, d, sidLength)
    ensures OldAces(d) == [] && ps == [] ==> aclSize == 8
    ensures OldAces(d) == [] && |ps| == 1 ==> aclSize == 8 + 8 + sidLength(ps[0].trustee)
  {
    aclSize := ACL_HEADER;
    for i := 0 to |ps|
      invariant aclSize == ACL_HEADER + PermissionBytes(ps[..i], sidLength)
    {
      PermissionBytesGrow(ps, i, sidLength);
      aclSize := aclSize + ACE_FIXED_PART + sidLength(ps[i].trustee);
    }
    assert ps[..|ps|] == ps;
    if |ps| == 1 {
      assert ps[..0] == [];
    }
    if d.Present? {
      aclSize := aclSize + OldBytes(d.aces);
    }
  }

  method CopyOld(acl: NewAcl, aces: seq<OldAce>) returns (success: bool)
    requires acl.aces == [] && ACL_HEADER + OldBytes(aces) <= acl.capacity
    modifies acl
    ensures success && acl.aces == CopiedAces(aces)
  {
    for i := 0 to |aces|
      invariant acl.aces == CopiedAces(aces[..i])
      invariant acl.Used() <= ACL_HEADER + OldBytes(aces[..i]) <= acl.capacity
    {
      OldBytesGrow(aces, i);
      assert aces[..i + 1][..i] == aces[..i];
      CopiedFit(aces[..i + 1]);
      if aces[i].readable {
        BytesAppend(acl.aces, [Copied(aces[i].id, aces[i].size)]);
        var added := acl.Add(Copied(aces[i].id, aces[i].size));
        if !added {
          return false;
        }
      }
    }
    assert aces[..|aces|] == aces;
    success := true;
  }

  /** One more permission: what is written grows by its entry, and still fits what was counted. */
  lemma EntryStep(copied: seq<Ace>, ps: seq<Permission>, i: nat, sidLength: string -> nat)
    requires i < |ps|
    ensures copied + NewEntries(ps[..i + 1], sidLength)
            == (copied + NewEntries(ps[..i], sidLength)) + NewEntry(ps[i], sidLength)
    ensures Bytes(copied + NewEntries(ps[..i + 1], sidLength))
            <= Bytes(copied) + PermissionBytes(ps[..i + 1], sidLength)
    ensures PermissionBytes(ps[..i + 1], sidLength) <= PermissionBytes(ps, sidLength)
  {
    PermissionBytesGrow(ps, i, sidLength);
    assert ps[..i + 1][..i] == ps[..i];
    EntriesFit(ps[..i + 1], sidLength);
    BytesAppend(copied, NewEntries(ps[..i + 1], sidLength));
  }

  /** The body of the second loop; a revocation adds nothing. */
  method AddEntry(acl: NewAcl, p: Permission, sidLength: string -> nat) returns (success: bool)
    modifies acl
    ensures acl.aces == old(acl.aces) + if success then NewEntry(p, sidLength) else []
    ensures if success && p.action != Revoke
            then |acl.aces| == |old(acl.aces)| + 1 && Says(acl.aces[|old(acl.aces)|], p)
            else acl.aces == old(acl.aces)
    ensures !success ==> ACL_HEADER + Bytes(old(acl.aces) + NewEntry(p, sidLength)) > acl.capacity
  {
    var size := EntrySize(sidLength(p.trustee));
    BytesAppend(acl.aces, NewEntry(p, sidLength));
    EntryBytes(p, sidLength);
    match p.action
    case Grant => success := acl.Add(Allowed(p.trustee, p.flags, p.mask, size));
    case Deny => success := acl.Add(Denied(p.trustee, p.flags, p.mask, size));
    case Revoke => success := true;
  }

  method AddNew(acl: NewAcl, ps: seq<Permission>, sidLength: string -> nat) returns (success: bool)
    requires acl.Used() + PermissionBytes(ps, sidLength) <= acl.capacity
    modifies acl
    ensures success && acl.aces == old(acl.aces) + NewEntries(ps, sidLength)
  {
    ghost var copied := acl.aces;
    for i := 0 to |ps|
      invariant acl.aces == copied + NewEntries(ps[..i], sidLength)
      invariant acl.Used() <= ACL_HEADER + Bytes(copied) + PermissionBytes(ps[..i], sidLength) <= acl.capacity
    {
      EntryStep(copied, ps, i, sidLength);
      success := AddEntry(acl, ps[i], sidLength);
      if !success {
        return;
      }
    }
    assert ps[..|ps|] == ps;
    success := true;
  }

  /** No entry is ever refused for want of room, and the list holds the readable old entries in order,
      then the grants and denials in the order given. */
  method BuildAcl(permissions: seq<Permission>, oldDacl: OldDacl, sidLength: string -> nat)
    returns (acl: NewAcl, success: bool)
    ensures fresh(acl) && success
    ensures acl.capacity == AclSize(permissions, oldDacl, sidLength)
    ensures acl.aces == CopiedAces(OldAces(oldDacl)) + NewEntries(permissions, sidLength)
    ensures var n := |Readable(OldAces(oldDacl))|;
            && n <= |acl.aces|
            && CopiesAll(acl.aces[..n], Readable(OldAces(oldDacl)))
            && SaysAll(acl.aces[n..], NotRevoked(permissions))
    ensures acl.Used() <= acl.capacity
    ensures acl.Used() == acl.capacity <==>
            NoRevoke(permissions)
            && (forall a :: a in OldAces(oldDacl) ==> a.readable)
  {
    var aclSize := ComputeSize(permissions, oldDacl, sidLength);
    acl := new NewAcl(aclSize);
    success := true;
    if oldDacl.Present? {
      success := CopyOld(acl, oldDacl.aces);
    }
    CopiedFit(OldAces(oldDacl));
    success := AddNew(acl, permissions, sidLength);
    NewListFits(permissions, oldDacl, sidLength);
    CopiedAreReadable(OldAces(oldDacl));
    EntriesSay(permissions, sidLength);
    assert acl.aces[..|Readable(OldAces(oldDacl))|] == CopiedAces(OldAces(oldDacl));
    assert acl.aces[|Readable(OldAces(oldDacl))|..] == NewEntries(permissions, sidLength);
  }
}
