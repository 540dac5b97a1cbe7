/** Owner strings: "host:service" and "vm:machine:service". The daemon reads them with two
    splitters, the UI with a third; this module proves that they agree. */
module Owners {
  import opened Wrappers
  import opened Strings
  import opened Like

  // ---------------------------------------------------------------- the daemon's readers

  /** The group a reservation is counted in: the machine for VM owners, the owner itself otherwise. */
  function CountPrefix(owner: string): string {
    if StartsWith(owner, "vm:") then
      var parts := SplitN(owner, ':', 3);
      if |parts| >= 2 then parts[0] + ":" + parts[1] else owner
    else owner
  }

  function VmName(owner: string): Option<string> {
    if StartsWith(owner, "vm:") then
      var parts := Split(owner, ':');
      if |parts| > 1 then Some(parts[1]) else None
    else None
  }

  predicate IsHost(owner: string) {
    StartsWith(owner, "host:")
  }

  lemma HostIsNoVm(owner: string)
    requires IsHost(owner)
    ensures VmName(owner).None?
  {
    assert owner[0] == "host:"[0];
  }

  // ---------------------------------------------------------------- the UI's reader and writer

  datatype ParsedOwner = Host(service: string) | Vm(vm: string, vmService: string) | Unknown(raw: string)

  function ParseOwner(raw: string): ParsedOwner {
    var parts := Split(raw, ':');
    if parts[0] == "host" && |parts| == 2 && parts[1] != "" then Host(parts[1])
    else if parts[0] == "vm" && |parts| >= 3 && parts[1] != "" && parts[2] != "" then
      Vm(parts[1], Join(parts[2..], ':'))
    else Unknown(raw)
  }

  function AssembleOwner(isHost: bool, vm: string, service: string): string {
    if isHost then "host:" + service else "vm:" + vm + ":" + service
  }

  // ---------------------------------------------------------------- agreement

  /** Every VM owner has a first field, whatever follows: the daemon's splitters always find it. */
  function Machine(owner: string): (m: string)
    requires StartsWith(owner, "vm:")
  {
    Split(owner[3..], ':')[0]
  }

  lemma DaemonReadersAgree(owner: string)
    requires StartsWith(owner, "vm:")
    ensures VmName(owner) == Some(Machine(owner))
    ensures CountPrefix(owner) == "vm:" + Machine(owner)
  {
    var tail := owner[3..];
    assert owner == "vm" + [':'] + tail;
    SplitAtSeparator("vm", tail, ':');
    SplitNAtSeparator("vm", tail, ':', 3);
    FirstPartsAgree(tail, ':', 2);
    assert "vm" + ":" + Machine(owner) == "vm:" + Machine(owner);
  }

  /** The machine is the text between "vm:" and the next ':', or all of the rest. */
  lemma MachineIsFirstField(owner: string)
    requires StartsWith(owner, "vm:")
    ensures ':' !in Machine(owner)
    ensures owner == "vm:" + Machine(owner) || "vm:" + Machine(owner) + ":" <= owner
  {
    var tail := owner[3..];
    assert owner == "vm:" + tail;
    FirstPartEnds(tail, ':');
  }

  lemma {:induction false} FirstPartEnds(s: string, sep: char)
    ensures sep !in Split(s, sep)[0]
    ensures s == Split(s, sep)[0] || Split(s, sep)[0] + [sep] <= s
  {
    if s != "" && s[0] != sep {
      FirstPartEnds(s[1..], sep);
      assert s == [s[0]] + s[1..];
    }
  }

  /** The text an owner is counted under. */
  function GroupText(owner: string): string {
    match VmName(owner)
    case Some(machine) => "vm:" + machine
    case None => owner
  }

  lemma GroupsAreNamed(owner: string)
    ensures CountPrefix(owner) == GroupText(owner)
    ensures VmName(owner).Some? <==> StartsWith(owner, "vm:")
  {
    if StartsWith(owner, "vm:") {
      DaemonReadersAgree(owner);
    }
  }

  /** Two owners are counted together exactly when they are the same, or name the same machine. */
  lemma SameGroupIsExact(a: string, b: string)
    ensures CountPrefix(a) == CountPrefix(b) <==> a == b || (VmName(a).Some? && VmName(a) == VmName(b))
  {
    GroupsAreNamed(a);
    GroupsAreNamed(b);
    if VmName(a).Some? && VmName(b).Some? {
      assert ("vm:" + VmName(a).value)[3..] == VmName(a).value;
      assert ("vm:" + VmName(b).value)[3..] == VmName(b).value;
    } else if VmName(a).Some? {
      assert ("vm:" + VmName(a).value)[..3] == "vm:";
    } else if VmName(b).Some? {
      assert ("vm:" + VmName(b).value)[..3] == "vm:";
    }
  }

  lemma {:induction false} FirstPartsAgree(s: string, sep: char, n: nat)
    requires n >= 2
    ensures SplitN(s, sep, n)[0] == Split(s, sep)[0]
  {
    if s != "" && s[0] != sep {
      FirstPartsAgree(s[1..], sep, n);
    }
  }

  lemma {:induction false} FirstPartIsPrefix(s: string, sep: char)
    ensures Split(s, sep)[0] <= s
  {
    if s != "" && s[0] != sep {
      FirstPartIsPrefix(s[1..], sep);
      assert s == [s[0]] + s[1..];
    }
  }

  /** The group name is a prefix of the owner, so the broker's LIKE count sees every member of the group. */
  lemma GroupIsCounted(owner: string)
    ensures CountPrefix(owner) <= owner
    ensures Matches(PrefixPattern(CountPrefix(owner)), owner)
  {
    if StartsWith(owner, "vm:") {
      DaemonReadersAgree(owner);
      FirstPartIsPrefix(owner[3..], ':');
      assert owner == "vm:" + owner[3..];
    }
    WatchedOwnersAreListed(CountPrefix(owner), owner);
  }

  lemma GroupOfVm(vm: string, service: string)
    requires ':' !in vm
    ensures CountPrefix("vm:" + vm + ":" + service) == "vm:" + vm
  {
    var owner := "vm:" + vm + ":" + service;
    assert owner[3..] == vm + [':'] + service;
    SplitAtSeparator(vm, service, ':');
    DaemonReadersAgree(owner);
  }

  /** The count can also see strangers: the pattern of machine "smith" selects every machine whose
      name continues it, such as "smithy", although that machine is a different group. */
  lemma PatternOvercounts(vm: string, longer: string, service: string, other: string)
    requires ':' !in longer && vm < longer
    ensures CountPrefix("vm:" + vm + ":" + service) != CountPrefix("vm:" + longer + ":" + other)
    ensures Matches(PrefixPattern(CountPrefix("vm:" + vm + ":" + service)), "vm:" + longer + ":" + other)
  {
    GroupOfVm(vm, service);
    GroupOfVm(longer, other);
    assert |"vm:" + vm| < |"vm:" + longer|;
    WatchedOwnersAreListed("vm:" + vm, "vm:" + longer + ":" + other);
  }

  lemma ParsingVm(owner: string)
    requires ParseOwner(owner).Vm?
    ensures StartsWith(owner, "vm:")
    ensures VmName(owner) == Some(ParseOwner(owner).vm)
    ensures CountPrefix(owner) == "vm:" + ParseOwner(owner).vm
  {
    var parts := Split(owner, ':');
    JoinOfSplit(owner, ':');
    assert owner == "vm" + [':'] + Join(parts[1..], ':');
    assert owner[..3] == "vm:";
    DaemonReadersAgree(owner);
    SplitAtSeparator("vm", owner[3..], ':');
    assert owner == "vm" + [':'] + owner[3..];
  }

  /** Writing what was read gives the owner back, for every owner the UI understands. */
  lemma AssembleOfParse(raw: string)
    ensures var p := ParseOwner(raw);
            && (p.Host? ==> AssembleOwner(true, "", p.service) == raw)
            && (p.Vm? ==> AssembleOwner(false, p.vm, p.vmService) == raw)
  {
    var parts := Split(raw, ':');
    JoinOfSplit(raw, ':');
    var p := ParseOwner(raw);
    if p.Host? {
      assert Join(parts[1..], ':') == parts[1];
      assert "host:" + parts[1] == "host" + [':'] + parts[1];
    } else if p.Vm? {
      assert parts[1..][1..] == parts[2..];
      assert raw == "vm" + [':'] + (parts[1] + [':'] + Join(parts[2..], ':'));
      assert "vm:" + p.vm + ":" + p.vmService == "vm" + [':'] + (p.vm + [':'] + p.vmService);
    }
  }

  /** Reading what was written gives the fields back, exactly when the fields are well formed: a host
      service is one nonempty field; a machine is one nonempty field and its service starts a nonempty
      field, after which ':' may appear. */
  lemma ParseOfAssemble(vm: string, service: string)
    ensures ParseOwner(AssembleOwner(true, vm, service)) == Host(service) <==> service != "" && ':' !in service
    ensures ParseOwner(AssembleOwner(false, vm, service)) == Vm(vm, service) <==>
            vm != "" && ':' !in vm && service != "" && service[0] != ':'
  {
    ParseOfHost(vm, service);
    ParseOfVm(vm, service);
  }

  lemma ParseOfHost(vm: string, service: string)
    ensures ParseOwner(AssembleOwner(true, vm, service)) == Host(service) <==> service != "" && ':' !in service
  {
    var owner := AssembleOwner(true, vm, service);
    assert owner == "host" + [':'] + service;
    SplitAtSeparator("host", service, ':');
    if ':' !in service {
      SplitWithoutSeparator(service, ':');
    }
    if ParseOwner(owner) == Host(service) {
      assert service == Split(owner, ':')[1];
    }
  }

  lemma ParseOfVm(vm: string, service: string)
    ensures ParseOwner(AssembleOwner(false, vm, service)) == Vm(vm, service) <==>
            vm != "" && ':' !in vm && service != "" && service[0] != ':'
  {
    var owner := AssembleOwner(false, vm, service);
    assert owner == "vm" + [':'] + (vm + [':'] + service);
    SplitAtSeparator("vm", vm + [':'] + service, ':');
    if ParseOwner(owner) == Vm(vm, service) {
      assert vm == Split(owner, ':')[1];
    }
    if ':' !in vm {
      SplitAtSeparator(vm, service, ':');
      var parts := Split(owner, ':');
      assert parts == ["vm"] + ([vm] + Split(service, ':'));
      assert parts[2..] == Split(service, ':');
      JoinOfSplit(service, ':');
      FirstFieldEmpty(service);
    }
  }

  lemma FirstFieldEmpty(s: string)
    ensures Split(s, ':')[0] == "" <==> s == "" || s[0] == ':'
  {
  }
}
