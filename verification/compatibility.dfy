/** The combo compatibility rules of ComboService: validateComboCompatibility as a
    scan over the detail lines followed by the cross-part checks, and the pairwise
    filter getCompatibleComponents. The catalog lookup (componenteDAO) is a map from
    component id to part. */
module ComboCompatibility {
  import opened Outcomes
  import opened Parts
  import opened ComboEntity

  /** The IllegalArgumentException messages of ComboService, one constructor each. */
  datatype ComboError =
    | InvalidDiscount
    | NoDetails
    | InvalidComboId
    | ComponentNotFound(id: int)
    | DuplicateMotherboard
    | DuplicateCpu
    | MissingMotherboard
    | MissingCpu
    | MissingRam
    | MissingDisk
    | SocketMismatch(boardSocket: string, cpuSocket: string)
    | RamTypeMismatch(boardRamType: string, ramType: string)
    | DiskConnectionUnsupported(diskConnection: string, boardConnections: string)

  // ---------------------------------------------------------------------------
  // The scan over the detail lines

  /** The scan's trackers: the Motherboard and the CPU met so far, and the first RAM. */
  datatype Trackers = Trackers(board: Option<Part>, cpu: Option<Part>, ram: Option<Part>)

  const NoTrackers := Trackers(None, None, None)

  /** Where the scan stops: with an error after `attached` details received their
      component, or at the end with the trackers and the resolved parts. */
  datatype Scan = Halted(error: ComboError, attached: nat) | Scanned(trackers: Trackers, parts: seq<Part>)

  /** The tracker update for one resolved part (the body of the switch). */
  function Advance(t: Trackers, p: Part): Trackers
  {
    if p.Motherboard? then t.(board := Some(p))
    else if p.Cpu? then t.(cpu := Some(p))
    else if p.Ram? && t.ram.None? then t.(ram := Some(p))
    else t
  }

  function ScanFrom(ids: seq<int>, catalog: map<int, Part>, i: nat, t: Trackers, parts: seq<Part>): (r: Scan)
    requires i <= |ids|
    ensures r.Halted? ==> i <= r.attached <= |ids|
    decreases |ids| - i
  {
    if i == |ids| then Scanned(t, parts)
    else if ids[i] !in catalog then Halted(ComponentNotFound(ids[i]), i)
    else
      var p := catalog[ids[i]];
      if p.Motherboard? && t.board.Some? then Halted(DuplicateMotherboard, i + 1)
      else if p.Cpu? && t.cpu.Some? then Halted(DuplicateCpu, i + 1)
      else ScanFrom(ids, catalog, i + 1, Advance(t, p), parts + [p])
  }

  function ScanAll(ids: seq<int>, catalog: map<int, Part>): Scan
  {
    ScanFrom(ids, catalog, 0, NoTrackers, [])
  }

  ghost predicate WellKinded(t: Trackers)
  {
    && (t.board.Some? ==> t.board.value.Motherboard?)
    && (t.cpu.Some? ==> t.cpu.value.Cpu?)
    && (t.ram.Some? ==> t.ram.value.Ram?)
  }

  lemma {:induction false} ScanKeepsWellKinded(ids: seq<int>, catalog: map<int, Part>, i: nat, t: Trackers, parts: seq<Part>)
    requires i <= |ids| && WellKinded(t)
    ensures ScanFrom(ids, catalog, i, t, parts).Scanned? ==> WellKinded(ScanFrom(ids, catalog, i, t, parts).trackers)
    decreases |ids| - i
  {
    if i < |ids| && ids[i] in catalog {
      ScanKeepsWellKinded(ids, catalog, i + 1, Advance(t, catalog[ids[i]]), parts + [catalog[ids[i]]]);
    }
  }

  // ---------------------------------------------------------------------------
  // The cross-part checks after the scan

  /** The memory type of the first RAM whose type differs from the board's. */
  function FirstRamMismatch(boardRamType: string, parts: seq<Part>): Option<string>
  {
    if parts == [] then None
    else if parts[0].Ram? && parts[0].memoryType != boardRamType then Some(parts[0].memoryType)
    else FirstRamMismatch(boardRamType, parts[1..])
  }

  /** The connection of the first disk that the board's connection string does not contain. */
  function FirstUnsupportedDisk(boardConnections: string, parts: seq<Part>): Option<string>
  {
    if parts == [] then None
    else if parts[0].Disk? && !Contains(boardConnections, parts[0].connection) then Some(parts[0].connection)
    else FirstUnsupportedDisk(boardConnections, parts[1..])
  }

  predicate HasDisk(parts: seq<Part>)
  {
    exists k | 0 <= k < |parts| :: parts[k].Disk?
  }

  function CrossCheck(t: Trackers, parts: seq<Part>): Outcome<ComboError>
    requires WellKinded(t)
  {
    if t.board.None? then Fail(MissingMotherboard)
    else if t.cpu.None? then Fail(MissingCpu)
    else if t.ram.None? then Fail(MissingRam)
    else if !HasDisk(parts) then Fail(MissingDisk)
    else
      var board, cpu := t.board.value, t.cpu.value;
      if board.socket != cpu.socket then Fail(SocketMismatch(board.socket, cpu.socket))
      else match FirstRamMismatch(board.ramType, parts)
        case Some(ramType) => Fail(RamTypeMismatch(board.ramType, ramType))
        case None =>
          if board.diskConnections.None? then Pass
          else match FirstUnsupportedDisk(board.diskConnections.value, parts)
            case Some(connection) => Fail(DiskConnectionUnsupported(connection, board.diskConnections.value))
            case None => Pass
  }

  /** The verdict of validateComboCompatibility on the component ids of the details. */
  function Validate(ids: seq<int>, catalog: map<int, Part>): Outcome<ComboError>
  {
    ScanKeepsWellKinded(ids, catalog, 0, NoTrackers, []);
    match ScanAll(ids, catalog)
    case Halted(e, _) => Fail(e)
    case Scanned(t, parts) => CrossCheck(t, parts)
  }

  /** How many details (a prefix) receive their resolved component. */
  function AttachedCount(ids: seq<int>, catalog: map<int, Part>): (n: nat)
    ensures n <= |ids|
  {
    match ScanAll(ids, catalog)
    case Halted(_, n) => n
    case Scanned(_, _) => |ids|
  }

  // ---------------------------------------------------------------------------
  // A reference definition: what a complete, compatible combo is

  predicate Resolves(ids: seq<int>, catalog: map<int, Part>)
  {
    forall k | 0 <= k < |ids| :: ids[k] in catalog
  }

  function Resolve(ids: seq<int>, catalog: map<int, Part>): (parts: seq<Part>)
    requires Resolves(ids, catalog)
    ensures |parts| == |ids| && forall k | 0 <= k < |ids| :: parts[k] == catalog[ids[k]]
  {
    seq(|ids|, k requires 0 <= k < |ids| => catalog[ids[k]])
  }

  ghost predicate HasKind(parts: seq<Part>, kind: Kind)
  {
    exists i | 0 <= i < |parts| :: parts[i].KindOf() == kind
  }

  ghost predicate AtMostOneOfKind(parts: seq<Part>, kind: Kind)
  {
    forall i, j | 0 <= i < |parts| && 0 <= j < |parts| && parts[i].KindOf() == kind && parts[j].KindOf() == kind :: i == j
  }

  /** What a Motherboard demands of every other part of the combo. */
  ghost predicate FitsBoard(board: Part, p: Part)
    requires board.Motherboard?
  {
    && (p.Cpu? ==> p.socket == board.socket)
    && (p.Ram? ==> p.memoryType == board.ramType)
    && (p.Disk? && board.diskConnections.Some? ==> Contains(board.diskConnections.value, p.connection))
  }

  /** Exactly one Motherboard line and one CPU line, at least one RAM and one disk line,
      and every line fits the Motherboard. */
  ghost predicate CompleteAndCompatible(parts: seq<Part>)
  {
    && HasKind(parts, MotherboardKind) && AtMostOneOfKind(parts, MotherboardKind)
    && HasKind(parts, CpuKind) && AtMostOneOfKind(parts, CpuKind)
    && HasKind(parts, RamKind) && HasKind(parts, DiskKind)
    && forall i, j | 0 <= i < |parts| && 0 <= j < |parts| && parts[i].Motherboard? :: FitsBoard(parts[i], parts[j])
  }

  /** Every line resolves and no second Motherboard or CPU line occurs. */
  ghost predicate ScanAccepts(ids: seq<int>, catalog: map<int, Part>)
  {
    Resolves(ids, catalog) &&
    AtMostOneOfKind(Resolve(ids, catalog), MotherboardKind) &&
    AtMostOneOfKind(Resolve(ids, catalog), CpuKind)
  }

  // ---------------------------------------------------------------------------
  // The scan, step by step

  ghost predicate TrackersAgree(t: Trackers, parts: seq<Part>)
  {
    && AtMostOneOfKind(parts, MotherboardKind) && AtMostOneOfKind(parts, CpuKind)
    && (t.board.Some? <==> HasKind(parts, MotherboardKind))
    && (t.cpu.Some? <==> HasKind(parts, CpuKind))
    && (t.ram.Some? <==> HasKind(parts, RamKind))
    && (forall k | 0 <= k < |parts| && parts[k].Motherboard? :: t.board == Some(parts[k]))
    && (forall k | 0 <= k < |parts| && parts[k].Cpu? :: t.cpu == Some(parts[k]))
    && (t.ram.Some? ==> t.ram.value.Ram?)
  }

  ghost predicate ScanInvariant(ids: seq<int>, catalog: map<int, Part>, i: nat, t: Trackers, parts: seq<Part>)
  {
    && i <= |ids| && |parts| == i
    && (forall k | 0 <= k < i :: ids[k] in catalog && parts[k] == catalog[ids[k]])
    && TrackersAgree(t, parts)
  }

  lemma AgreeingTrackersWellKinded(t: Trackers, parts: seq<Part>)
    requires TrackersAgree(t, parts)
    ensures WellKinded(t)
  {
    if t.board.Some? {
      var k :| 0 <= k < |parts| && parts[k].KindOf() == MotherboardKind;
      assert t.board == Some(parts[k]);
    }
    if t.cpu.Some? {
      var k :| 0 <= k < |parts| && parts[k].KindOf() == CpuKind;
      assert t.cpu == Some(parts[k]);
    }
  }

  lemma AppendKind(parts: seq<Part>, p: Part, kind: Kind)
    ensures HasKind(parts + [p], kind) <==> HasKind(parts, kind) || p.KindOf() == kind
    ensures AtMostOneOfKind(parts + [p], kind) <==>
              AtMostOneOfKind(parts, kind) && (p.KindOf() == kind ==> !HasKind(parts, kind))
  {
    AppendHasKind(parts, p, kind);
    AppendAtMostOne(parts, p, kind);
  }

  lemma AppendHasKind(parts: seq<Part>, p: Part, kind: Kind)
    ensures HasKind(parts + [p], kind) <==> HasKind(parts, kind) || p.KindOf() == kind
  {
    var s := parts + [p];
    if HasKind(s, kind) {
      var i :| 0 <= i < |s| && s[i].KindOf() == kind;
      if i < |parts| {
        assert parts[i] == s[i];
      }
    }
    if HasKind(parts, kind) {
      var i :| 0 <= i < |parts| && parts[i].KindOf() == kind;
      assert s[i] == parts[i];
    }
    if p.KindOf() == kind {
      assert s[|parts|] == p;
    }
  }

  lemma AppendAtMostOne(parts: seq<Part>, p: Part, kind: Kind)
    ensures AtMostOneOfKind(parts + [p], kind) <==>
              AtMostOneOfKind(parts, kind) && (p.KindOf() == kind ==> !HasKind(parts, kind))
  {
    var s := parts + [p];
    assert forall k | 0 <= k < |parts| :: s[k] == parts[k];
    assert s[|parts|] == p;
    if p.KindOf() == kind && HasKind(parts, kind) {
      var i :| 0 <= i < |parts| && parts[i].KindOf() == kind;
      assert s[i].KindOf() == kind && s[|parts|].KindOf() == kind;
    }
  }

  lemma ScanStep(ids: seq<int>, catalog: map<int, Part>, i: nat, t: Trackers, parts: seq<Part>)
    requires ScanInvariant(ids, catalog, i, t, parts) && i < |ids| && ids[i] in catalog
    requires !(catalog[ids[i]].Motherboard? && t.board.Some?) && !(catalog[ids[i]].Cpu? && t.cpu.Some?)
    ensures ScanInvariant(ids, catalog, i + 1, Advance(t, catalog[ids[i]]), parts + [catalog[ids[i]]])
  {
    var p := catalog[ids[i]];
    var s := parts + [p];
    AdvanceAgrees(t, parts, p);
    assert forall k | 0 <= k < i :: s[k] == parts[k];
    assert s[i] == p;
  }

  /** Advancing the trackers over a part that repeats no Motherboard and no CPU
      keeps them in agreement with the parts seen so far. */
  lemma AdvanceAgrees(t: Trackers, parts: seq<Part>, p: Part)
    requires TrackersAgree(t, parts)
    requires !(p.Motherboard? && t.board.Some?) && !(p.Cpu? && t.cpu.Some?)
    ensures TrackersAgree(Advance(t, p), parts + [p])
  {
    var s := parts + [p];
    var t' := Advance(t, p);
    AppendKind(parts, p, MotherboardKind);
    AppendKind(parts, p, CpuKind);
    AppendKind(parts, p, RamKind);
    assert forall k | 0 <= k < |parts| :: s[k] == parts[k];
    assert s[|parts|] == p;
    forall k | 0 <= k < |s| && s[k].Motherboard? ensures t'.board == Some(s[k]) {
      if k < |parts| {
        assert parts[k].Motherboard?;
      }
    }
    forall k | 0 <= k < |s| && s[k].Cpu? ensures t'.cpu == Some(s[k]) {
      if k < |parts| {
        assert parts[k].Cpu?;
      }
    }
  }

  lemma {:induction false} ScanFromCorrect(ids: seq<int>, catalog: map<int, Part>, i: nat, t: Trackers, parts: seq<Part>)
    requires ScanInvariant(ids, catalog, i, t, parts)
    ensures ScanFrom(ids, catalog, i, t, parts).Scanned? <==> ScanAccepts(ids, catalog)
    ensures ScanFrom(ids, catalog, i, t, parts).Scanned? ==>
              ScanInvariant(ids, catalog, |ids|, ScanFrom(ids, catalog, i, t, parts).trackers, ScanFrom(ids, catalog, i, t, parts).parts)
    decreases |ids| - i
  {
    if i == |ids| {
      assert parts == Resolve(ids, catalog);
    } else if ids[i] !in catalog {
    } else {
      var p := catalog[ids[i]];
      if (p.Motherboard? && t.board.Some?) || (p.Cpu? && t.cpu.Some?) {
        if Resolves(ids, catalog) {
          var whole := Resolve(ids, catalog);
          var kind := p.KindOf();
          assert HasKind(parts, kind);
          var k :| 0 <= k < |parts| && parts[k].KindOf() == kind;
          assert whole[k] == parts[k] && whole[i] == p;
          assert !AtMostOneOfKind(whole, kind);
        }
      } else {
        ScanStep(ids, catalog, i, t, parts);
        ScanFromCorrect(ids, catalog, i + 1, Advance(t, p), parts + [p]);
      }
    }
  }

  lemma ScanAllCorrect(ids: seq<int>, catalog: map<int, Part>)
    ensures ScanAll(ids, catalog).Scanned? <==> ScanAccepts(ids, catalog)
    ensures ScanAll(ids, catalog).Scanned? ==>
              ScanInvariant(ids, catalog, |ids|, ScanAll(ids, catalog).trackers, ScanAll(ids, catalog).parts)
  {
    assert ScanInvariant(ids, catalog, 0, NoTrackers, []);
    ScanFromCorrect(ids, catalog, 0, NoTrackers, []);
  }

  // ---------------------------------------------------------------------------
  // The cross-part checks against the reference definition

  lemma {:induction false} FirstRamMismatchNone(boardRamType: string, parts: seq<Part>)
    ensures FirstRamMismatch(boardRamType, parts).None? <==>
              forall j | 0 <= j < |parts| && parts[j].Ram? :: parts[j].memoryType == boardRamType
  {
    if parts != [] {
      FirstRamMismatchNone(boardRamType, parts[1..]);
      assert forall j | 1 <= j < |parts| :: parts[j] == parts[1..][j - 1];
    }
  }

  lemma {:induction false} FirstUnsupportedDiskNone(boardConnections: string, parts: seq<Part>)
    ensures FirstUnsupportedDisk(boardConnections, parts).None? <==>
              forall j | 0 <= j < |parts| && parts[j].Disk? :: Contains(boardConnections, parts[j].connection)
  {
    if parts != [] {
      FirstUnsupportedDiskNone(boardConnections, parts[1..]);
      assert forall j | 1 <= j < |parts| :: parts[j] == parts[1..][j - 1];
    }
  }

  lemma CrossCheckCorrect(t: Trackers, parts: seq<Part>)
    requires TrackersAgree(t, parts)
    ensures WellKinded(t)
    ensures CrossCheck(t, parts).Pass? <==> CompleteAndCompatible(parts)
  {
    AgreeingTrackersWellKinded(t, parts);
    assert HasDisk(parts) <==> HasKind(parts, DiskKind) by {
      if HasDisk(parts) {
        var k :| 0 <= k < |parts| && parts[k].Disk?;
        assert parts[k].KindOf() == DiskKind;
      }
      if HasKind(parts, DiskKind) {
        var k :| 0 <= k < |parts| && parts[k].KindOf() == DiskKind;
        assert parts[k].Disk?;
      }
    }
    if t.board.Some? && t.cpu.Some? && t.ram.Some? && HasDisk(parts) {
      var board, cpu := t.board.value, t.cpu.value;
      var kb :| 0 <= kb < |parts| && parts[kb].KindOf() == MotherboardKind;
      var kc :| 0 <= kc < |parts| && parts[kc].KindOf() == CpuKind;
      assert parts[kb] == board && parts[kc] == cpu;
      FirstRamMismatchNone(board.ramType, parts);
      if board.diskConnections.Some? {
        FirstUnsupportedDiskNone(board.diskConnections.value, parts);
      }
      if CrossCheck(t, parts).Pass? {
        forall i, j | 0 <= i < |parts| && 0 <= j < |parts| && parts[i].Motherboard?
          ensures FitsBoard(parts[i], parts[j])
        {
          assert parts[i] == board;
          if parts[j].Cpu? {
            assert parts[j] == cpu;
          }
        }
      }
    }
  }

  // ---------------------------------------------------------------------------
  // What validateComboCompatibility promises

  /** Compatibility soundness and completeness: the validator accepts exactly the
      detail lists whose ids all resolve to a complete, compatible set of parts. */
  lemma ValidateAcceptsExactlyCompatible(ids: seq<int>, catalog: map<int, Part>)
    ensures Validate(ids, catalog).Pass? <==>
              Resolves(ids, catalog) && CompleteAndCompatible(Resolve(ids, catalog))
  {
    ScanAllCorrect(ids, catalog);
    match ScanAll(ids, catalog)
    case Halted(_, _) =>
    case Scanned(t, parts) =>
      assert parts == Resolve(ids, catalog);
      CrossCheckCorrect(t, parts);
  }

  /** After a clean scan, the missing-part errors come in the fixed order
      Motherboard, CPU, RAM, disk. */
  lemma MissingPartsInOrder(ids: seq<int>, catalog: map<int, Part>)
    requires ScanAccepts(ids, catalog)
    ensures var parts, r := Resolve(ids, catalog), Validate(ids, catalog);
      && (r == Fail(MissingMotherboard) <==> !HasKind(parts, MotherboardKind))
      && (r == Fail(MissingCpu) <==> HasKind(parts, MotherboardKind) && !HasKind(parts, CpuKind))
      && (r == Fail(MissingRam) <==>
            HasKind(parts, MotherboardKind) && HasKind(parts, CpuKind) && !HasKind(parts, RamKind))
      && (r == Fail(MissingDisk) <==>
            HasKind(parts, MotherboardKind) && HasKind(parts, CpuKind) && HasKind(parts, RamKind) &&
            !HasKind(parts, DiskKind))
  {
    ScanAllCorrect(ids, catalog);
    var t, parts := ScanAll(ids, catalog).trackers, ScanAll(ids, catalog).parts;
    assert parts == Resolve(ids, catalog);
    CrossCheckCorrect(t, parts);
    HasDiskIsHasKind(parts);
  }

  lemma HasDiskIsHasKind(parts: seq<Part>)
    ensures HasDisk(parts) <==> HasKind(parts, DiskKind)
  {
    if HasDisk(parts) {
      var k :| 0 <= k < |parts| && parts[k].Disk?;
      assert parts[k].KindOf() == DiskKind;
    }
    if HasKind(parts, DiskKind) {
      var k :| 0 <= k < |parts| && parts[k].KindOf() == DiskKind;
      assert parts[k].Disk?;
    }
  }

  lemma ResolvePrefixStep(ids: seq<int>, catalog: map<int, Part>, j: nat)
    requires j < |ids| && Resolves(ids[..j + 1], catalog)
    ensures Resolves(ids[..j], catalog) && ids[j] in catalog
    ensures Resolve(ids[..j + 1], catalog) == Resolve(ids[..j], catalog) + [catalog[ids[j]]]
  {
    assert ids[..j + 1][j] == ids[j];
    assert forall k | 0 <= k < j :: ids[..j + 1][k] == ids[..j][k];
  }

  /** The scan reaches line j with the trackers of the first j lines when those
      lines resolve without a repeated Motherboard or CPU. */
  lemma {:induction false} ScanReaches(ids: seq<int>, catalog: map<int, Part>, j: nat) returns (t: Trackers, parts: seq<Part>)
    requires j <= |ids| && ScanAccepts(ids[..j], catalog)
    ensures ScanInvariant(ids, catalog, j, t, parts)
    ensures parts == Resolve(ids[..j], catalog)
    ensures ScanAll(ids, catalog) == ScanFrom(ids, catalog, j, t, parts)
  {
    if j == 0 {
      t, parts := NoTrackers, [];
      assert ScanInvariant(ids, catalog, 0, t, parts);
    } else {
      ResolvePrefixStep(ids, catalog, j - 1);
      var whole := Resolve(ids[..j], catalog);
      var p := catalog[ids[j - 1]];
      AppendKind(Resolve(ids[..j - 1], catalog), p, MotherboardKind);
      AppendKind(Resolve(ids[..j - 1], catalog), p, CpuKind);
      var t0, p0 := ScanReaches(ids, catalog, j - 1);
      ScanStep(ids, catalog, j - 1, t0, p0);
      t, parts := Advance(t0, p), p0 + [p];
    }
  }

  /** A line whose id does not resolve stops the scan there, before it is attached. */
  lemma UnresolvedLineRejected(ids: seq<int>, catalog: map<int, Part>, j: nat)
    requires j < |ids| && ScanAccepts(ids[..j], catalog) && ids[j] !in catalog
    ensures Validate(ids, catalog) == Fail(ComponentNotFound(ids[j]))
    ensures AttachedCount(ids, catalog) == j
  {
    var t, parts := ScanReaches(ids, catalog, j);
  }

  /** A second Motherboard or a second CPU is rejected as soon as the scan reaches it,
      after it has been attached to its line. */
  lemma RepeatedBoardOrCpuRejected(ids: seq<int>, catalog: map<int, Part>, j: nat)
    requires j < |ids| && ScanAccepts(ids[..j], catalog) && ids[j] in catalog
    requires catalog[ids[j]].Motherboard? || catalog[ids[j]].Cpu?
    requires HasKind(Resolve(ids[..j], catalog), catalog[ids[j]].KindOf())
    ensures catalog[ids[j]].Motherboard? ==> Validate(ids, catalog) == Fail(DuplicateMotherboard)
    ensures catalog[ids[j]].Cpu? ==> Validate(ids, catalog) == Fail(DuplicateCpu)
    ensures AttachedCount(ids, catalog) == j + 1
  {
    var t, parts := ScanReaches(ids, catalog, j);
  }

  /** Further RAM lines never stop the scan. */
  lemma RamLineKeepsScanning(ids: seq<int>, catalog: map<int, Part>, j: nat)
    requires j < |ids| && ScanAccepts(ids[..j], catalog) && ids[j] in catalog && catalog[ids[j]].Ram?
    ensures ScanAccepts(ids[..j + 1], catalog)
  {
    assert Resolves(ids[..j + 1], catalog) by {
      assert forall k | 0 <= k < j :: ids[..j + 1][k] == ids[..j][k];
    }
    ResolvePrefixStep(ids, catalog, j);
    AppendKind(Resolve(ids[..j], catalog), catalog[ids[j]], MotherboardKind);
    AppendKind(Resolve(ids[..j], catalog), catalog[ids[j]], CpuKind);
  }

  // ---------------------------------------------------------------------------
  // validateComboCompatibility, in place

  /** The scan loop of validateComboCompatibility: resolves each detail's component id,
      attaches the part to the detail and tracks the Motherboard, CPU and first RAM;
      `halt` is the error that stops the scan, if any. */
  method ScanDetails(details: seq<ComboDetail>, catalog: map<int, Part>)
      returns (halt: Option<ComboError>, board: Option<Part>, cpu: Option<Part>, ram: Option<Part>, ghost parts: seq<Part>)
    modifies details
    ensures forall d | d in details ::
      d.comboId == old(d.comboId) && d.componentId == old(d.componentId) && d.quantity == old(d.quantity)
    ensures halt.Some? <==> ScanAll(old(ComponentIds(details)), catalog).Halted?
    ensures halt.Some? ==> halt.value == ScanAll(old(ComponentIds(details)), catalog).error
    ensures halt.None? ==> ScanAll(old(ComponentIds(details)), catalog) == Scanned(Trackers(board, cpu, ram), parts)
    ensures halt.None? ==> TrackersAgree(Trackers(board, cpu, ram), parts) && |parts| == |details|
    ensures halt.None? ==> forall k | 0 <= k < |details| :: details[k].component == Some(parts[k])
    ensures forall k | 0 <= k < AttachedCount(old(ComponentIds(details)), catalog) ::
      details[k].componentId in catalog && details[k].component == Some(catalog[details[k].componentId])
    ensures forall d | d in details && d !in details[..AttachedCount(old(ComponentIds(details)), catalog)] ::
      d.component == old(d.component)
  {
    ghost var ids := ComponentIds(details);
    ghost var scan := ScanAll(ids, catalog);
    board, cpu, ram, parts, halt := None, None, None, [], None;
    var i := 0;
    while i < |details| && halt.None?
      invariant 0 <= i <= |details|
      invariant forall k | 0 <= k < |details| ::
        details[k].comboId == old(details[k].comboId) && details[k].componentId == ids[k] &&
        details[k].quantity == old(details[k].quantity)
      invariant halt.None? ==> scan == ScanFrom(ids, catalog, i, Trackers(board, cpu, ram), parts)
      invariant halt.Some? ==> scan == Halted(halt.value, i)
      invariant forall k | 0 <= k < i :: details[k].componentId in catalog && details[k].component == Some(catalog[details[k].componentId])
      invariant forall d | d in details && d !in details[..i] :: d.component == old(d.component)
      decreases |details| - i, if halt.None? then 1 else 0
    {
      var detail := details[i];
      if detail.componentId !in catalog {
        halt := Some(ComponentNotFound(detail.componentId));
      } else {
        var comp := catalog[detail.componentId];
        ghost var before := Trackers(board, cpu, ram);
        halt, board, cpu, ram := TrackPart(comp, board, cpu, ram);
        assert halt.None? ==> Trackers(board, cpu, ram) == Advance(before, comp);
        parts := parts + [comp];
        detail.component := Some(comp);
        assert forall k | 0 <= k <= i ::
          details[k].componentId in catalog && details[k].component == Some(catalog[details[k].componentId]);
        assert details[..i + 1] == details[..i] + [detail];
        i := i + 1;
      }
    }
    if halt.None? {
      ScanAllCorrect(ids, catalog);
    }
  }

  /** One step of the scan's switch on the part's type: a second Motherboard or CPU
      stops the scan, otherwise the part is tracked as Advance tracks it. */
  method TrackPart(comp: Part, board: Option<Part>, cpu: Option<Part>, ram: Option<Part>)
      returns (halt: Option<ComboError>, board': Option<Part>, cpu': Option<Part>, ram': Option<Part>)
    ensures halt == (if comp.Motherboard? && board.Some? then Some(DuplicateMotherboard)
                     else if comp.Cpu? && cpu.Some? then Some(DuplicateCpu)
                     else None)
    ensures halt.None? ==> Trackers(board', cpu', ram') == Advance(Trackers(board, cpu, ram), comp)
  {
    halt, board', cpu', ram' := None, board, cpu, ram;
    match comp.KindOf() {
      case MotherboardKind =>
        if board.Some? {
          halt := Some(DuplicateMotherboard);
        } else {
          board' := Some(comp);
        }
      case CpuKind =>
        if cpu.Some? {
          halt := Some(DuplicateCpu);
        } else {
          cpu' := Some(comp);
        }
      case RamKind =>
        if ram.None? {
          ram' := Some(comp);
        }
      case DiskKind =>
    }
  }

  /** The RAM loop of the cross-part checks: the first attached RAM whose type differs
      from the board's. */
  method FindRamMismatch(details: seq<ComboDetail>, boardRamType: string, ghost parts: seq<Part>) returns (m: Option<string>)
    requires |parts| == |details|
    requires forall k | 0 <= k < |details| :: details[k].component == Some(parts[k])
    ensures m == FirstRamMismatch(boardRamType, parts)
  {
    var j := 0;
    while j < |details|
      invariant 0 <= j <= |details|
      invariant FirstRamMismatch(boardRamType, parts[j..]) == FirstRamMismatch(boardRamType, parts)
    {
      var c := details[j].component;
      if c.Some? && c.value.Ram? {
        if boardRamType != c.value.memoryType {
          return Some(c.value.memoryType);
        }
      }
      assert parts[j..][1..] == parts[j + 1..];
      j := j + 1;
    }
    return None;
  }

  /** The disk loop of the cross-part checks: the first attached disk whose connection
      the board's connection string does not contain. */
  method FindUnsupportedDisk(details: seq<ComboDetail>, boardConnections: string, ghost parts: seq<Part>) returns (m: Option<string>)
    requires |parts| == |details|
    requires forall k | 0 <= k < |details| :: details[k].component == Some(parts[k])
    ensures m == FirstUnsupportedDisk(boardConnections, parts)
  {
    var j := 0;
    while j < |details|
      invariant 0 <= j <= |details|
      invariant FirstUnsupportedDisk(boardConnections, parts[j..]) == FirstUnsupportedDisk(boardConnections, parts)
    {
      var c := details[j].component;
      if c.Some? && c.value.Disk? {
        if !Contains(boardConnections, c.value.connection) {
          return Some(c.value.connection);
        }
      }
      assert parts[j..][1..] == parts[j + 1..];
      j := j + 1;
    }
    return None;
  }

  /** The cross-part checks of validateComboCompatibility, over the attached components. */
  method CheckAttached(details: seq<ComboDetail>, board: Option<Part>, cpu: Option<Part>, ram: Option<Part>, ghost parts: seq<Part>)
      returns (r: Outcome<ComboError>)
    requires WellKinded(Trackers(board, cpu, ram)) && |parts| == |details|
    requires forall k | 0 <= k < |details| :: details[k].component == Some(parts[k])
    ensures r == CrossCheck(Trackers(board, cpu, ram), parts)
  {
    if board.None? {
      return Fail(MissingMotherboard);
    }
    if cpu.None? {
      return Fail(MissingCpu);
    }
    if ram.None? {
      return Fail(MissingRam);
    }
    var hasDisk := exists k | 0 <= k < |details| ::
      details[k].component.Some? && details[k].component.value.TypeTag() == "DiscoDuro";
    assert hasDisk <==> HasDisk(parts) by {
      if hasDisk {
        var k :| 0 <= k < |details| && details[k].component.Some? && details[k].component.value.TypeTag() == "DiscoDuro";
        assert parts[k].Disk?;
      }
      if HasDisk(parts) {
        var k :| 0 <= k < |parts| && parts[k].Disk?;
        assert details[k].component.Some? && details[k].component.value.TypeTag() == "DiscoDuro";
      }
    }
    if !hasDisk {
      return Fail(MissingDisk);
    }
    var tm, mp := board.value, cpu.value;
    if tm.socket != mp.socket {
      return Fail(SocketMismatch(tm.socket, mp.socket));
    }

    var ramMismatch := FindRamMismatch(details, tm.ramType, parts);
    if ramMismatch.Some? {
      return Fail(RamTypeMismatch(tm.ramType, ramMismatch.value));
    }
    if tm.diskConnections.Some? {
      var unsupported := FindUnsupportedDisk(details, tm.diskConnections.value, parts);
      if unsupported.Some? {
        return Fail(DiskConnectionUnsupported(unsupported.value, tm.diskConnections.value));
      }
    }
    return Pass;
  }

  /** validateComboCompatibility: the verdict is Validate on the details' component ids;
      every detail the scan reached holds its resolved part, and no other field of any
      detail changes. */
  method ValidateComboCompatibility(details: seq<ComboDetail>, catalog: map<int, Part>) returns (r: Outcome<ComboError>)
    modifies details
    ensures forall d | d in details ::
      d.comboId == old(d.comboId) && d.componentId == old(d.componentId) && d.quantity == old(d.quantity)
    ensures r == Validate(old(ComponentIds(details)), catalog)
    ensures forall k | 0 <= k < AttachedCount(old(ComponentIds(details)), catalog) ::
      details[k].componentId in catalog && details[k].component == Some(catalog[details[k].componentId])
    ensures forall d | d in details && d !in details[..AttachedCount(old(ComponentIds(details)), catalog)] ::
      d.component == old(d.component)
  {
    var halt, board, cpu, ram, parts := ScanDetails(details, catalog);
    if halt.Some? {
      return Fail(halt.value);
    }
    AgreeingTrackersWellKinded(Trackers(board, cpu, ram), parts);
    r := CheckAttached(details, board, cpu, ram, parts);
  }

  // ---------------------------------------------------------------------------
  // getCompatibleComponents

  /** The pairwise rule between the selected part and a candidate. NullConnections is
      the NullPointerException of a Motherboard-disk pair whose board has a null
      connection string. */
  datatype Verdict = Compatible | Incompatible | NullConnections

  datatype FilterError = NullDiskConnections

  function DiskVerdict(board: Part, disk: Part): Verdict
    requires board.Motherboard? && disk.Disk?
  {
    if board.diskConnections.None? then NullConnections
    else if Contains(board.diskConnections.value, disk.connection) then Compatible
    else Incompatible
  }

  function PairVerdict(selected: Part, target: Part): Verdict
  {
    if selected.Motherboard? then
      if target.Cpu? then (if selected.socket == target.socket then Compatible else Incompatible)
      else if target.Ram? then (if selected.ramType == target.memoryType then Compatible else Incompatible)
      else if target.Disk? then DiskVerdict(selected, target)
      else Incompatible
    else if target.Motherboard? then
      if selected.Cpu? then (if selected.socket == target.socket then Compatible else Incompatible)
      else if selected.Ram? then (if selected.memoryType == target.ramType then Compatible else Incompatible)
      else DiskVerdict(target, selected)
    else Incompatible
  }

  /** Only a Motherboard and a part of another kind are related. */
  predicate Related(a: Part, b: Part)
  {
    a.Motherboard? != b.Motherboard?
  }

  /** The pairwise rule is symmetric, is the validator's FitsBoard rule wherever the
      board's connection string is not null, and never accepts an unrelated pair. */
  lemma PairVerdictAgreesWithFitsBoard(board: Part, p: Part)
    requires board.Motherboard? && !p.Motherboard?
    ensures PairVerdict(p, board) == PairVerdict(board, p)
    ensures PairVerdict(board, p) == NullConnections <==> p.Disk? && board.diskConnections.None?
    ensures PairVerdict(board, p) != NullConnections ==> (PairVerdict(board, p) == Compatible <==> FitsBoard(board, p))
  {
  }

  lemma UnrelatedPairIncompatible(a: Part, b: Part)
    requires !Related(a, b)
    ensures PairVerdict(a, b) == Incompatible
  {
  }

  /** componenteDAO.getComponentesByType: the parts of one type tag, in catalog order. */
  function OfType(components: seq<Part>, typeTag: string): (r: seq<Part>)
    ensures forall p | p in r :: p in components && p.TypeTag() == typeTag
    ensures forall p | p in components && p.TypeTag() == typeTag :: p in r
    ensures IsSubsequence(r, components)
    ensures forall p :: multiset(r)[p] == if p.TypeTag() == typeTag then multiset(components)[p] else 0
  {
    if components == [] then []
    else
      var head, rest := components[0], OfType(components[1..], typeTag);
      assert components == [head] + components[1..];
      SubsequenceCons(head, rest, components[1..]);
      if head.TypeTag() == typeTag then [head] + rest else rest
  }

  /** A subsequence stays one when an element is put in front of the longer sequence,
      or in front of both. */
  lemma SubsequenceCons<T>(x: T, a: seq<T>, b: seq<T>)
    requires IsSubsequence(a, b)
    ensures IsSubsequence([x] + a, [x] + b) && IsSubsequence(a, [x] + b)
  {
    assert ([x] + a)[1..] == a && ([x] + b)[1..] == b;
  }

  /** The candidates compatible with the selected part, in order; any null-connection
      pair aborts the whole lookup. */
  function CompatibleWith(selected: Part, candidates: seq<Part>): Result<seq<Part>, FilterError>
  {
    if candidates == [] then Success([])
    else match PairVerdict(selected, candidates[0])
      case NullConnections => Failure(NullDiskConnections)
      case Incompatible => CompatibleWith(selected, candidates[1..])
      case Compatible =>
        match CompatibleWith(selected, candidates[1..])
        case Success(rest) => Success([candidates[0]] + rest)
        case Failure(e) => Failure(e)
  }

  predicate IsSubsequence<T(==)>(a: seq<T>, b: seq<T>)
    decreases |b|
  {
    a == [] || (b != [] && ((a[0] == b[0] && IsSubsequence(a[1..], b[1..])) || IsSubsequence(a, b[1..])))
  }

  /** The lookup keeps, in their original order, exactly the compatible candidates. */
  lemma {:induction false} CompatibleWithKeepsExactlyCompatible(selected: Part, candidates: seq<Part>)
    ensures CompatibleWith(selected, candidates).Success? ==>
      && IsSubsequence(CompatibleWith(selected, candidates).value, candidates)
      && forall p :: p in CompatibleWith(selected, candidates).value <==>
                      p in candidates && PairVerdict(selected, p) == Compatible
  {
    if candidates != [] {
      CompatibleWithKeepsExactlyCompatible(selected, candidates[1..]);
      assert candidates == [candidates[0]] + candidates[1..];
      var r := CompatibleWith(selected, candidates);
      if r.Success? && PairVerdict(selected, candidates[0]) == Compatible {
        var rest := CompatibleWith(selected, candidates[1..]).value;
        assert r.value == [candidates[0]] + rest;
        assert r.value[1..] == rest;
      }
    }
  }

  /** The lookup fails exactly when some candidate meets the null connection string. */
  lemma {:induction false} CompatibleWithFailsOnNullConnections(selected: Part, candidates: seq<Part>)
    ensures CompatibleWith(selected, candidates).Failure? <==>
              exists k | 0 <= k < |candidates| :: PairVerdict(selected, candidates[k]) == NullConnections
  {
    if candidates != [] {
      CompatibleWithFailsOnNullConnections(selected, candidates[1..]);
      assert forall k | 1 <= k < |candidates| :: candidates[k] == candidates[1..][k - 1];
      if exists k | 0 <= k < |candidates[1..]| :: PairVerdict(selected, candidates[1..][k]) == NullConnections {
        var k :| 0 <= k < |candidates[1..]| && PairVerdict(selected, candidates[1..][k]) == NullConnections;
        assert PairVerdict(selected, candidates[k + 1]) == NullConnections;
      }
    }
  }

  /** Candidates unrelated to the selected part yield nothing. */
  lemma {:induction false} UnrelatedCandidatesYieldNothing(selected: Part, candidates: seq<Part>)
    requires forall k | 0 <= k < |candidates| :: !Related(selected, candidates[k])
    ensures CompatibleWith(selected, candidates) == Success([])
  {
    if candidates != [] {
      UnrelatedPairIncompatible(selected, candidates[0]);
      UnrelatedCandidatesYieldNothing(selected, candidates[1..]);
    }
  }

  /** The kept parts before a lookup's result; a failure stays a failure. */
  function Prepend(kept: seq<Part>, r: Result<seq<Part>, FilterError>): Result<seq<Part>, FilterError>
  {
    match r
    case Success(rest) => Success(kept + rest)
    case Failure(e) => Failure(e)
  }

  lemma PrependStep(selected: Part, kept: seq<Part>, candidates: seq<Part>)
    requires candidates != []
    ensures PairVerdict(selected, candidates[0]) == NullConnections ==>
      Prepend(kept, CompatibleWith(selected, candidates)) == Failure(NullDiskConnections)
    ensures PairVerdict(selected, candidates[0]) == Compatible ==>
      Prepend(kept, CompatibleWith(selected, candidates)) == Prepend(kept + [candidates[0]], CompatibleWith(selected, candidates[1..]))
    ensures PairVerdict(selected, candidates[0]) == Incompatible ==>
      Prepend(kept, CompatibleWith(selected, candidates)) == Prepend(kept, CompatibleWith(selected, candidates[1..]))
  {
    if PairVerdict(selected, candidates[0]) == Compatible && CompatibleWith(selected, candidates[1..]).Success? {
      var rest := CompatibleWith(selected, candidates[1..]).value;
      assert kept + ([candidates[0]] + rest) == (kept + [candidates[0]]) + rest;
    }
  }

  /** One candidate of the lookup: stop on a null connection list, keep a compatible
      candidate, skip any other. */
  method FilterCandidate(chosen: Part, kept: seq<Part>, candidates: seq<Part>) returns (stop: bool, next: seq<Part>)
    requires candidates != []
    ensures stop ==> Prepend(kept, CompatibleWith(chosen, candidates)) == Failure(NullDiskConnections)
    ensures !stop ==> Prepend(kept, CompatibleWith(chosen, candidates)) == Prepend(next, CompatibleWith(chosen, candidates[1..]))
  {
    PrependStep(chosen, kept, candidates);
    var verdict := PairVerdict(chosen, candidates[0]);
    stop, next := verdict == NullConnections, if verdict == Compatible then kept + [candidates[0]] else kept;
  }

  /** getCompatibleComponents: all parts of the target type when nothing is selected,
      otherwise the compatible ones among them. */
  method GetCompatibleComponents(selected: Option<Part>, components: seq<Part>, targetType: string)
      returns (r: Result<seq<Part>, FilterError>)
    ensures selected.None? ==> r == Success(OfType(components, targetType))
    ensures selected.Some? ==> r == CompatibleWith(selected.value, OfType(components, targetType))
  {
    var all := OfType(components, targetType);
    if selected.None? {
      return Success(all);
    }
    var chosen := selected.value;
    var compatible: seq<Part> := [];
    var i := 0;
    assert all[i..] == all;
    assert Prepend([], CompatibleWith(chosen, all)) == CompatibleWith(chosen, all) by {
      if CompatibleWith(chosen, all).Success? {
        assert [] + CompatibleWith(chosen, all).value == CompatibleWith(chosen, all).value;
      }
    }
    while i < |all|
      invariant 0 <= i <= |all|
      invariant CompatibleWith(chosen, all) == Prepend(compatible, CompatibleWith(chosen, all[i..]))
    {
      assert all[i..][1..] == all[i + 1..];
      var stop;
      stop, compatible := FilterCandidate(chosen, compatible, all[i..]);
      if stop {
        return Failure(NullDiskConnections);
      }
      i := i + 1;
    }
    assert all[i..] == [];
    assert compatible + [] == compatible;
    return Success(compatible);
  }
}
