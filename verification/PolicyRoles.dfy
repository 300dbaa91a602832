/**
  Process roles: the packed form written by `tcf_util_process_roles_serialize` and read back by
  `tcf_util_process_roles_extract` (`tcf_process.c`).

  A record is the name length, the length of all members, the number of members (32 bits each), the name, and for
  each member a length byte and its name.
*/
module PolicyRoles {
  import opened Bytes
  import opened Lists
  import opened RecordLayout

  const MAX_NAME: nat := 64
  const TWO31: nat := 0x8000_0000

  /** Names are strings without their terminator. */
  datatype Role = Role(name: seq<byte>, members: seq<seq<byte>>)

  function MembersBytes(ms: seq<seq<byte>>): seq<byte> {
    if ms == [] then [] else MembersBytes(ms[..|ms| - 1]) + MemberBytes(ms[|ms| - 1])
  }

  /** A length byte and the name. */
  function MemberBytes(m: seq<byte>): (r: seq<byte>)
    ensures |r| == 1 + |m|
  {
    [|m| % 256] + m
  }

  function RoleBytes(r: Role): seq<byte> {
    Be32(|r.name|) + Be32(|MembersBytes(r.members)|) + Be32(|r.members|) + r.name + MembersBytes(r.members)
  }

  /** What the reader needs to find; the members' length may be larger than necessary, and is not looked at when there
      are no members. */
  ghost predicate RoleIn(mem: Mem, op: nat, r: Role) {
    var body := MembersBytes(r.members);
    && Word(mem, op) == |r.name| && Word(mem, op + 8) == |r.members|
    && (r.members != [] ==> |body| <= Word(mem, op + 4))
    && Short(r.members)
    && Slice(mem, op + 12, |r.name|) == r.name
    && Slice(mem, op + 12 + |r.name|, |body|) == body
  }

  /** Lengths fit the length byte. */
  ghost predicate Short(ms: seq<seq<byte>>) { forall i :: 0 <= i < |ms| ==> |ms[i]| < 256 }

  predicate NamesFit(r: Role) {
    |r.name| <= MAX_NAME && forall i :: 0 <= i < |r.members| ==> |r.members[i]| <= MAX_NAME
  }

  lemma MembersNext(ms: seq<seq<byte>>, j: nat)
    requires j < |ms|
    ensures MembersBytes(ms[..j + 1]) == MembersBytes(ms[..j]) + MemberBytes(ms[j])
  {
    assert ms[..j + 1][..j] == ms[..j];
  }

  // ----- Serializing -----

  /** First pass for one role: its size, or `None` when a name is too long. */
  method Measure(role: Role) returns (size: Option<nat>)
    ensures size == if NamesFit(role) then Some(|RoleBytes(role)|) else None
  {
    if |role.name| > MAX_NAME {
      return None;
    }
    var len := 12 + |role.name| + |role.members|;
    var j := 0;
    while j < |role.members|
      invariant 0 <= j <= |role.members|
      invariant len == 12 + |role.name| + |role.members| - j + |MembersBytes(role.members[..j])|
      invariant forall i :: 0 <= i < j ==> |role.members[i]| <= MAX_NAME
    {
      if |role.members[j]| > MAX_NAME {
        return None;
      }
      MembersNext(role.members, j);
      len := len + |role.members[j]|;
      j := j + 1;
    }
    assert role.members[..j] == role.members;
    return Some(len);
  }

  /** Second pass for one role. */
  method WriteRole(buf: array<byte>, op: nat, role: Role) returns (size: nat)
    requires NamesFit(role) && op + |RoleBytes(role)| <= buf.Length
    modifies buf
    ensures size == |RoleBytes(role)| && Seg(buf[..], op, RoleBytes(role))
    ensures KeepsBelow(old(buf[..]), buf[..], op)
  {
    hide Seg, Over, Be32, MembersBytes;
    var namelen := |role.name|;
    Put(buf, op, Be32(namelen));
    Put(buf, op + 8, Be32(|role.members|));
    Put(buf, op + 12, role.name);
    var opMember := WriteMembers(buf, op, role);
    Put(buf, op + 4, Be32(opMember));
    size := 12 + opMember + namelen;
    JoinRole(buf[..], op, role);
  }

  lemma JoinRole(b: seq<byte>, op: nat, role: Role)
    requires Seg(b, op, Be32(|role.name|)) && Seg(b, op + 4, Be32(|MembersBytes(role.members)|))
    requires Seg(b, op + 8, Be32(|role.members|)) && Seg(b, op + 12, role.name)
    requires Seg(b, op + 12 + |role.name|, MembersBytes(role.members))
    ensures Seg(b, op, RoleBytes(role))
  {
    hide Seg, Be32, MembersBytes;
    var body := MembersBytes(role.members);
    var h1 := Be32(|role.name|) + Be32(|body|);
    SegJoin(b, op, Be32(|role.name|), Be32(|body|));
    SegJoin(b, op, h1, Be32(|role.members|));
    SegJoin(b, op, h1 + Be32(|role.members|), role.name);
    SegJoin(b, op, h1 + Be32(|role.members|) + role.name, body);
  }

  method WriteMember(buf: array<byte>, at: nat, m: seq<byte>)
    requires |m| < 256 && at + 1 + |m| <= buf.Length
    modifies buf
    ensures Seg(buf[..], at, MemberBytes(m)) && KeepsBelow(old(buf[..]), buf[..], at)
  {
    hide Seg, Over;
    Put(buf, at, [|m|]);
    Put(buf, at + 1, m);
    SegJoin(buf[..], at, [|m|], m);
  }

  method WriteMembers(buf: array<byte>, op: nat, role: Role) returns (opMember: nat)
    requires NamesFit(role) && op + 12 + |role.name| + |MembersBytes(role.members)| <= buf.Length
    modifies buf
    ensures opMember == |MembersBytes(role.members)|
    ensures Seg(buf[..], op + 12 + |role.name|, MembersBytes(role.members))
    ensures KeepsBelow(old(buf[..]), buf[..], op + 12 + |role.name|)
  {
    opMember := 0;
    var base := op + 12 + |role.name|;
    var j := 0;
    assert role.members[..0] == [];
    assert Seg(buf[..], base, MembersBytes(role.members[..0]));
    hide Seg, KeepsBelow, MembersBytes, MemberBytes;
    while j < |role.members|
      invariant 0 <= j <= |role.members|
      invariant opMember == |MembersBytes(role.members[..j])|
      invariant Seg(buf[..], base, MembersBytes(role.members[..j]))
      invariant KeepsBelow(old(buf[..]), buf[..], base)
    {
      MembersNext(role.members, j);
      MembersPrefix(role.members, j + 1);
      var m := role.members[j];
      ghost var before := buf[..];
      WriteMember(buf, base + opMember, m);
      Kept(before, buf[..], base + opMember, base, MembersBytes(role.members[..j]));
      SegJoin(buf[..], base, MembersBytes(role.members[..j]), MemberBytes(m));
      KeepsTwice(old(buf[..]), before, buf[..], base, base + opMember);
      opMember := opMember + |m| + 1;
      j := j + 1;
    }
    assert role.members[..j] == role.members;
  }

  lemma {:induction false} MembersPrefix(ms: seq<seq<byte>>, j: nat)
    requires j <= |ms|
    ensures MembersBytes(ms[..j]) <= MembersBytes(ms)
    decreases |ms| - j
  {
    if j < |ms| {
      MembersPrefix(ms, j + 1);
      MembersNext(ms, j);
    } else {
      assert ms[..j] == ms;
    }
  }

  /** First pass: the length of the buffer, or `None`. */
  method MeasureAll(roles: seq<Role>) returns (actLen: Option<nat>)
    ensures actLen == if forall i :: 0 <= i < |roles| ==> NamesFit(roles[i]) then Some(End(RoleBytes, roles)) else None
  {
    hide RoleBytes, NamesFit;
    var len := 0;
    var i := 0;
    while i < |roles|
      invariant 0 <= i <= |roles| && len == End(RoleBytes, roles[..i])
      invariant forall k :: 0 <= k < i ==> NamesFit(roles[k])
    {
      var size := Measure(roles[i]);
      if size == None {
        return None;
      }
      EndAligned(RoleBytes, roles[..i]);
      EndNext(RoleBytes, roles, i);
      Align4Add(len, size.value);
      len := Align4(len + size.value);
      i := i + 1;
    }
    assert roles[..i] == roles;
    return Some(len);
  }

  /** `tcf_util_process_roles_serialize`: refuses names that are too long; the length computed beforehand is the
      offset behind the last record. */
  method Serialize(roles: seq<Role>) returns (ok: bool, buf: array<byte>)
    requires End(RoleBytes, roles) < TWO31
    ensures fresh(buf)
    ensures ok == forall i :: 0 <= i < |roles| ==> NamesFit(roles[i])
    ensures ok ==> Encoded(RoleBytes, buf[..], roles)
  {
    hide RoleBytes, NamesFit, Encoded, End;
    var actLen := MeasureAll(roles);
    if actLen == None {
      return false, new byte[0];
    }
    buf := new byte[actLen.value];
    var op := 0;
    var i := 0;
    NothingEncoded(RoleBytes, buf[..], roles);
    assert buf[..][..0] == buf[..0];
    while i < |roles|
      invariant 0 <= i <= |roles| && op == End(RoleBytes, roles[..i]) <= buf.Length == actLen.value
      invariant fresh(buf) && Encoded(RoleBytes, buf[..op], roles[..i])
    {
      op := WriteNext(buf, op, roles, i);
      i := i + 1;
    }
    assert roles[..i] == roles && buf[..op] == buf[..];
    ok := true;
  }

  /** One turn of the writing loop. */
  method WriteNext(buf: array<byte>, op: nat, roles: seq<Role>, i: nat) returns (op': nat)
    requires i < |roles| && NamesFit(roles[i]) && End(RoleBytes, roles) == buf.Length
    requires op == End(RoleBytes, roles[..i]) <= buf.Length && Encoded(RoleBytes, buf[..op], roles[..i])
    modifies buf
    ensures op' == End(RoleBytes, roles[..i + 1]) <= buf.Length && Encoded(RoleBytes, buf[..op'], roles[..i + 1])
  {
    hide RoleBytes, NamesFit, Seg, Encoded, End, KeepsBelow;
    EndNext(RoleBytes, roles, i);
    EndPrefix(RoleBytes, roles, i + 1);
    ghost var was := buf[..];
    ghost var before := buf[..op];
    SegPrefix(was, op);
    assert was[..op] == before;
    var size := WriteRole(buf, op, roles[i]);
    Kept(was, buf[..], op, 0, before);
    EncodedStep(RoleBytes, buf[..], before, roles, i);
    op' := op + Align4(size);
    assert buf[..][..op'] == buf[..op'];
  }

  // ----- Extracting -----

  /** The members `ms` stand at `base`. */
  ghost predicate MembersIn(mem: Mem, base: nat, ms: seq<seq<byte>>) {
    Short(ms) && Slice(mem, base, |MembersBytes(ms)|) == MembersBytes(ms)
  }

  /** A reader that has read `j` members of `ms` finds the next one. */
  lemma NextMember(mem: Mem, base: nat, ms: seq<seq<byte>>, j: nat)
    requires MembersIn(mem, base, ms) && j < |ms|
    ensures var p := |MembersBytes(ms[..j])|;
            && mem(base + p) == |ms[j]| && Slice(mem, base + p + 1, |ms[j]|) == ms[j]
            && p + 1 + |ms[j]| <= |MembersBytes(ms)|
  {
    hide MembersBytes;
    var a := MembersBytes(ms[..j]);
    var b := MembersBytes(ms[..j + 1]);
    MembersNext(ms, j);
    MembersPrefix(ms, j + 1);
    SlicePart(mem, base, |MembersBytes(ms)|, |a|, 1 + |ms[j]|);
    var s := Slice(mem, base + |a|, 1 + |ms[j]|);
    assert s == b[|a|..] == MemberBytes(ms[j]);
    assert mem(base + |a|) == s[0];
    SlicePart(mem, base + |a|, 1 + |ms[j]|, 1, |ms[j]|);
    assert s[1..] == ms[j];
  }

  lemma MembersInNext(mem: Mem, base: nat, ms: seq<seq<byte>>, m: seq<byte>)
    requires MembersIn(mem, base, ms) && |m| < 256
    requires mem(base + |MembersBytes(ms)|) == |m| && Slice(mem, base + |MembersBytes(ms)| + 1, |m|) == m
    ensures MembersIn(mem, base, ms + [m]) && |MembersBytes(ms + [m])| == |MembersBytes(ms)| + 1 + |m|
  {
    var all := ms + [m];
    MembersNext(all, |ms|);
    assert all[..|ms|] == ms && all[..|ms| + 1] == all;
    hide MembersBytes;
    var a := MembersBytes(ms);
    MemberAt(mem, base + |a|, m);
    SliceSplit(mem, base, a, MemberBytes(m));
  }

  lemma MemberAt(mem: Mem, at: nat, m: seq<byte>)
    requires |m| < 256 && mem(at) == |m| && Slice(mem, at + 1, |m|) == m
    ensures Slice(mem, at, |MemberBytes(m)|) == MemberBytes(m)
  {
    assert Slice(mem, at, 1) == [|m|];
    SliceSplit(mem, at, [|m|], m);
  }

  /** The inner loop: a length byte tells each member. It succeeds with given members if and only if these stand there and
      pass its two checks, the second of which is the length of all members. */
  method ExtractMembers(mem: Mem, length: nat, op: nat, nameLen: nat, membersLength: nat, n: nat, ghost want: seq<seq<byte>>)
    returns (r: Option<seq<seq<byte>>>, memberOpt: nat)
    ensures MembersFit(mem, length, op, nameLen, membersLength, n, want) ==> r == Some(want)
    ensures r.Some? ==>
              && MembersFit(mem, length, op, nameLen, membersLength, n, r.value)
              && memberOpt == nameLen + |MembersBytes(r.value)|
  {
    ghost var good := MembersFit(mem, length, op, nameLen, membersLength, n, want);
    var members: seq<seq<byte>> := [];
    memberOpt := nameLen;
    var base := op + 12 + nameLen;
    var j := 0;
    assert MembersIn(mem, base, []) && want[..0] == [];
    assert MembersBytes([]) == [];
    hide MembersBytes, MembersIn, Slice;
    while j < n
      invariant 0 <= j <= n && |members| == j && MembersIn(mem, base, members)
      invariant memberOpt == nameLen + |MembersBytes(members)|
      invariant j > 0 ==> op + nameLen + |MembersBytes(members)| <= length + 1 && |MembersBytes(members)| <= membersLength
      invariant good ==> members == want[..j]
    {
      if good {
        NextMember(mem, base, want, j);
        assert want[..j + 1] == want[..j] + [want[j]];
      }
      var len := mem(op + 12 + memberOpt);
      if op + memberOpt + len > length {
        return None, memberOpt;
      }
      var m := Slice(mem, op + 12 + memberOpt + 1, len);
      MembersInNext(mem, base, members, m);
      members := members + [m];
      memberOpt := memberOpt + 1 + len;
      if memberOpt > membersLength + nameLen {
        return None, memberOpt;
      }
      j := j + 1;
    }
    assert good ==> want[..n] == want;
    r := Some(members);
  }

  /** What the checks of the member loop let through: the bytes of the members end at most one byte behind `length`, not
      counting the 12 bytes of the record header. */
  ghost predicate MembersFit(mem: Mem, length: nat, op: nat, nameLen: nat, membersLength: nat, n: nat, ms: seq<seq<byte>>) {
    && |ms| == n && MembersIn(mem, op + 12 + nameLen, ms)
    && (n > 0 ==> op + nameLen + |MembersBytes(ms)| <= length + 1 && |MembersBytes(ms)| <= membersLength)
  }

  /** So the loop may read beyond the buffer: an empty member of an empty buffer passes, read from offset 12. Only the
      check at the end of the record refuses it. */
  lemma MembersBeyond(mem: Mem)
    requires mem(12) == 0
    ensures MembersFit(mem, 0, 0, 0, 1, 1, [[]]) && 12 + |MembersBytes([[]])| == 13
  {
    var ms: seq<seq<byte>> := [[]];
    MembersNext(ms, 0);
    assert ms[..1] == ms && ms[..0] == [];
    MemberAt(mem, 12, []);
  }

  lemma RoleSize(role: Role)
    ensures |RoleBytes(role)| == 12 + |role.name| + |MembersBytes(role.members)|
  {
  }

  method ExtractRole(mem: Mem, length: nat, op: nat, ghost want: Role) returns (r: Option<Role>, op': nat)
    ensures RoleIn(mem, op, want) && op + Align4(|RoleBytes(want)|) <= length ==> r == Some(want)
    ensures r.Some? ==> RoleIn(mem, op, r.value) && op' == op + Align4(|RoleBytes(r.value)|) <= length
  {
    hide RoleBytes, MembersBytes, Word;
    RoleSize(want);
    op' := op;
    var nameLen := Word(mem, op);
    var membersLength := Word(mem, op + 4);
    if op + nameLen > length {
      return None, op';
    }
    var name := Slice(mem, op + 12, nameLen);
    var members, memberOpt := ExtractMembers(mem, length, op, nameLen, membersLength, Word(mem, op + 8), want.members);
    if members == None {
      return None, op';
    }
    RoleSize(Role(name, members.value));
    op' := op + Align4(memberOpt + 12);
    if op' > length {
      return None, op';
    }
    r := Some(Role(name, members.value));
  }

  /** `tcf_util_process_roles_extract`: succeeds with `want` if and only if memory holds exactly `want`, within the
      length given. */
  method Extract(mem: Mem, num: nat, length: nat, ghost want: seq<Role>) returns (r: Result<seq<Role>>)
    ensures |want| == num && Laid(RoleBytes, RoleIn, mem, want) && End(RoleBytes, want) <= length ==> r == Ok(want)
    ensures r.Ok? ==> |r.value| == num && Laid(RoleBytes, RoleIn, mem, r.value) && End(RoleBytes, r.value) <= length
    ensures r.Err? ==> r.error == Parameter
  {
    hide RoleBytes, RoleIn, End, Laid, Align4;
    ghost var good := |want| == num && Laid(RoleBytes, RoleIn, mem, want) && End(RoleBytes, want) <= length;
    var roles: seq<Role> := [];
    var op := 0;
    var i := 0;
    assert want[..0] == [];
    LaidNone(RoleBytes, RoleIn, mem);
    while i < num
      invariant 0 <= i <= num && |roles| == i && op == End(RoleBytes, roles) && Laid(RoleBytes, RoleIn, mem, roles)
      invariant op <= length || i == 0
      invariant good ==> roles == want[..i]
    {
      ghost var next := if good then want[i] else Role([], []);
      if good {
        LaidPrefix(RoleBytes, RoleIn, mem, want, i);
        assert want[..i + 1] == want[..i] + [want[i]];
      }
      var role, op' := ExtractRole(mem, length, op, next);
      if role == None {
        return Err(Parameter);
      }
      LaidNext(RoleBytes, RoleIn, mem, roles, role.value);
      roles := roles + [role.value];
      op := op';
      i := i + 1;
    }
    assert good ==> want[..num] == want;
    r := Ok(roles);
  }

  // ----- Round trip -----

  /** The reader finds what the writer wrote. */
  lemma BytesIn(mem: Mem, op: nat, role: Role)
    requires Slice(mem, op, |RoleBytes(role)|) == RoleBytes(role)
    requires NamesFit(role) && |RoleBytes(role)| < TWO31
    ensures RoleIn(mem, op, role)
  {
    hide MembersBytes, Be32, Word;
    var body := MembersBytes(role.members);
    var h := Be32(|role.name|) + Be32(|body|);
    var h' := h + Be32(|role.members|);
    MembersCount(role.members);
    SliceSplit(mem, op, h' + role.name, body);
    SliceSplit(mem, op, h', role.name);
    SliceSplit(mem, op, h, Be32(|role.members|));
    SliceSplit(mem, op, Be32(|role.name|), Be32(|body|));
    WordBe32(mem, op, |role.name|);
    WordBe32(mem, op + 4, |body|);
    WordBe32(mem, op + 8, |role.members|);
  }

  lemma {:induction false} MembersCount(ms: seq<seq<byte>>)
    ensures |ms| <= |MembersBytes(ms)|
  {
    if ms != [] {
      MembersCount(ms[..|ms| - 1]);
    }
  }

  /** Extracting what was serialized gives the roles back, whatever lies behind the buffer. */
  method RoundTrip(roles: seq<Role>, beyond: Mem) returns (r: Result<seq<Role>>)
    requires End(RoleBytes, roles) < TWO31 && forall i :: 0 <= i < |roles| ==> NamesFit(roles[i])
    ensures r == Ok(roles)
  {
    hide RoleBytes, RoleIn, NamesFit;
    var ok, buf := Serialize(roles);
    var b := buf[..];
    var mem: Mem := (i: nat) => if i < |b| then b[i] else beyond(i);
    assert Starts(mem, b);
    forall at, k | 0 <= k < |roles| && Slice(mem, at, |RoleBytes(roles[k])|) == RoleBytes(roles[k])
      ensures RoleIn(mem, at, roles[k])
    {
      EndPrefix(RoleBytes, roles, k + 1);
      EndNext(RoleBytes, roles, k);
      BytesIn(mem, at, roles[k]);
    }
    EncodedLaid(RoleBytes, RoleIn, mem, b, roles);
    r := Extract(mem, |roles|, |b|, roles);
  }
}
