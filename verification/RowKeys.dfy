/** The row keys of the memory store: a label, the JSON of the key parts, and
    the storage version, all in one flat byte string. */
module RowKeys {
  import opened Bytes
  import opened JsonText

  /** One constructor per label. */
  datatype Table =
    | KeyPackages | Psks | EncryptionKeyPairs | SignatureKeyPairs | EpochKeyPairs
    | Trees | GroupContexts | ApplicationExportTrees
    | VcEpochStates | VcBindings | VcLogEntries | VcOperationTrees
    | RetainedMaterials | RetainedEpochs
    | InterimTranscriptHashes | ConfirmationTags
    | JoinConfigs | OwnLeafNodes | GroupStates | QueuedProposals | ProposalQueueRefs
    | OwnLeafIndices | EpochSecrets | ResumptionPsks | MessageSecrets

  function LabelText(t: Table): string {
    match t
    case KeyPackages => "KeyPackage"
    case Psks => "Psk"
    case EncryptionKeyPairs => "EncryptionKeyPair"
    case SignatureKeyPairs => "SignatureKeyPair"
    case EpochKeyPairs => "EpochKeyPairs"
    case Trees => "Tree"
    case GroupContexts => "GroupContext"
    case ApplicationExportTrees => "ApplicationExportTree"
    case VcEpochStates => "VcDerivationEpochState"
    case VcBindings => "VcEmulationBinding"
    case VcLogEntries => "VcDerivationEpochLogEntry"
    case VcOperationTrees => "VcOperationTree"
    case RetainedMaterials => "RetainedKeyPackageMaterial"
    case RetainedEpochs => "RetainedKeyPackageEpoch"
    case InterimTranscriptHashes => "InterimTranscriptHash"
    case ConfirmationTags => "ConfirmationTag"
    case JoinConfigs => "MlsGroupJoinConfig"
    case OwnLeafNodes => "OwnLeafNodes"
    case GroupStates => "GroupState"
    case QueuedProposals => "QueuedProposal"
    case ProposalQueueRefs => "ProposalQueueRefs"
    case OwnLeafIndices => "OwnLeafNodeIndex"
    case EpochSecrets => "EpochSecrets"
    case ResumptionPsks => "ResumptionPsk"
    case MessageSecrets => "MessageSecrets"
  }

  function Label(t: Table): bytes {
    Ascii(LabelText(t))
  }

  // -------------------------------------------- the labels are prefix-free

  predicate At(s: bytes, i: nat, c: char) {
    i < |s| && s[i] == Code(c)
  }

  /** Tells the label at the start of `s` from a few of its characters. */
  function Classify(s: bytes): Table {
    if At(s, 0, 'K') then KeyPackages
    else if At(s, 0, 'P') then (if At(s, 1, 's') then Psks else ProposalQueueRefs)
    else if At(s, 0, 'E') then
      (if At(s, 1, 'n') then EncryptionKeyPairs else if At(s, 5, 'K') then EpochKeyPairs else EpochSecrets)
    else if At(s, 0, 'S') then SignatureKeyPairs
    else if At(s, 0, 'T') then Trees
    else if At(s, 0, 'G') then (if At(s, 5, 'C') then GroupContexts else GroupStates)
    else if At(s, 0, 'A') then ApplicationExportTrees
    else if At(s, 0, 'V') then
      (if At(s, 2, 'E') then VcBindings
       else if At(s, 2, 'O') then VcOperationTrees
       else if At(s, 17, 'S') then VcEpochStates else VcLogEntries)
    else if At(s, 0, 'R') then
      (if At(s, 2, 's') then ResumptionPsks
       else if At(s, 18, 'M') then RetainedMaterials else RetainedEpochs)
    else if At(s, 0, 'I') then InterimTranscriptHashes
    else if At(s, 0, 'C') then ConfirmationTags
    else if At(s, 0, 'M') then (if At(s, 1, 'l') then JoinConfigs else MessageSecrets)
    else if At(s, 0, 'O') then (if At(s, 11, 's') then OwnLeafNodes else OwnLeafIndices)
    else QueuedProposals
  }

  lemma ClassifyLabel0(t: Table, rest: bytes)
    requires || t.KeyPackages? || t.Psks? || t.EncryptionKeyPairs? || t.SignatureKeyPairs?
             || t.EpochKeyPairs? || t.ProposalQueueRefs?
    ensures Classify(Label(t) + rest) == t
  {
    var text := LabelText(t);
    var s := Ascii(text) + rest;
    assert forall i | 0 <= i < |text| :: s[i] == Code(text[i]);
  }

  lemma ClassifyLabel1(t: Table, rest: bytes)
    requires t.Trees? || t.GroupContexts? || t.ApplicationExportTrees? || t.GroupStates?
    ensures Classify(Label(t) + rest) == t
  {
    var text := LabelText(t);
    var s := Ascii(text) + rest;
    assert forall i | 0 <= i < |text| :: s[i] == Code(text[i]);
  }

  lemma ClassifyLabel2(t: Table, rest: bytes)
    requires t.VcEpochStates? || t.VcBindings? || t.VcLogEntries? || t.VcOperationTrees?
    ensures Classify(Label(t) + rest) == t
  {
    var text := LabelText(t);
    var s := Ascii(text) + rest;
    assert forall i | 0 <= i < |text| :: s[i] == Code(text[i]);
  }

  lemma ClassifyLabel3(t: Table, rest: bytes)
    requires t.InterimTranscriptHashes? || t.ConfirmationTags? || t.QueuedProposals? || t.ResumptionPsks?
    ensures Classify(Label(t) + rest) == t
  {
    var text := LabelText(t);
    var s := Ascii(text) + rest;
    assert forall i | 0 <= i < |text| :: s[i] == Code(text[i]);
  }

  lemma ClassifyLabel4(t: Table, rest: bytes)
    requires t.JoinConfigs? || t.OwnLeafNodes? || t.OwnLeafIndices?
    ensures Classify(Label(t) + rest) == t
  {
    var text := LabelText(t);
    var s := Ascii(text) + rest;
    assert forall i | 0 <= i < |text| :: s[i] == Code(text[i]);
  }

  lemma ClassifyLabel5(t: Table, rest: bytes)
    requires t.RetainedMaterials? || t.RetainedEpochs? || t.EpochSecrets? || t.MessageSecrets?
    ensures Classify(Label(t) + rest) == t
  {
    var text := LabelText(t);
    var s := Ascii(text) + rest;
    assert forall i | 0 <= i < |text| :: s[i] == Code(text[i]);
  }

  lemma ClassifyLabel(t: Table, rest: bytes)
    ensures Classify(Label(t) + rest) == t
  {
    match t {
      case KeyPackages | Psks | EncryptionKeyPairs | SignatureKeyPairs | EpochKeyPairs | ProposalQueueRefs =>
        ClassifyLabel0(t, rest);
      case Trees | GroupContexts | ApplicationExportTrees | GroupStates => ClassifyLabel1(t, rest);
      case VcEpochStates | VcBindings | VcLogEntries | VcOperationTrees => ClassifyLabel2(t, rest);
      case JoinConfigs | OwnLeafNodes | OwnLeafIndices => ClassifyLabel4(t, rest);
      case RetainedMaterials | RetainedEpochs | EpochSecrets | MessageSecrets => ClassifyLabel5(t, rest);
      case _ => ClassifyLabel3(t, rest);
    }
  }

  /** No label is the start of another, so the table can be read off a key. */
  lemma LabelsPrefixFree(a: Table, b: Table, x: bytes, y: bytes)
    requires Label(a) + x == Label(b) + y
    ensures a == b && x == y
  {
    ClassifyLabel(a, x);
    ClassifyLabel(b, y);
    CancelLeft(Label(a), x, y);
  }

  // -------------------------------------------------------------- row keys

  /** Group ids: structs or byte vectors, so their JSON is an object or array. */
  type GroupId = j: Json | SelfDelimiting(j) witness Null

  /** Tables whose rows are keyed by one serialized value. */
  predicate IsPlain(t: Table) {
    t !in {VcEpochStates, VcOperationTrees, RetainedMaterials, RetainedEpochs, VcBindings, VcLogEntries,
           QueuedProposals, ProposalQueueRefs, EpochKeyPairs}
  }
  type PlainTable = t: Table | IsPlain(t) witness KeyPackages

  /** What a row is about. Epoch key pairs are keyed by the digits of the epoch
      and the leaf index run together. */
  datatype RowKey =
    | State(epoch: Json)
    | OpTree(epoch: Json)
    | Material(keyPackage: Json)
    | MaterialEpoch(keyPackage: Json)
    | Binding(group: GroupId, groupEpoch: nat)
    | LogEntry(group: GroupId, epoch: Json)
    | Proposal(group: GroupId, ref: Json)
    | ProposalRefs(group: GroupId)
    | EpochKeys(group: GroupId, digits: bytes)
    | Plain(table: PlainTable, key: Json)

  function TableOf(r: RowKey): Table {
    match r
    case State(_) => VcEpochStates
    case OpTree(_) => VcOperationTrees
    case Material(_) => RetainedMaterials
    case MaterialEpoch(_) => RetainedEpochs
    case Binding(_, _) => VcBindings
    case LogEntry(_, _) => VcLogEntries
    case Proposal(_, _) => QueuedProposals
    case ProposalRefs(_) => ProposalQueueRefs
    case EpochKeys(_, _) => EpochKeyPairs
    case Plain(t, _) => t
  }

  /** The serialized key parts between the label and the version. */
  function Body(r: RowKey): bytes {
    match r
    case State(e) => Print(e)
    case OpTree(e) => Print(e)
    case Material(k) => Print(k)
    case MaterialEpoch(k) => Print(k)
    case Binding(g, n) => Print(g) + Print(Num(n))
    case LogEntry(g, e) => Print(g) + Print(e)
    case Proposal(g, p) => Print(Arr([g, p]))
    case ProposalRefs(g) => Print(g)
    case EpochKeys(g, d) => Print(g) + d
    case Plain(_, k) => Print(k)
  }

  /** The part of `epoch_key_pairs_id` after the group id. */
  function EpochKeyDigits(epoch: nat, leaf: nat): bytes {
    Print(Num(epoch)) + Print(Num(leaf))
  }

  /** `u16::to_be_bytes(CURRENT_VERSION)`. */
  const VERSION: bytes := [0, 1]

  /** `build_key_from_vec`. */
  function BuildKey(t: Table, body: bytes): bytes {
    Label(t) + (body + VERSION)
  }

  function KeyBytes(r: RowKey): bytes {
    BuildKey(TableOf(r), Body(r))
  }

  lemma BodyInjective(a: RowKey, b: RowKey)
    requires TableOf(a) == TableOf(b) && Body(a) == Body(b)
    ensures a == b
  {
    match a
    case State(x) => PrintInjective(x, b.epoch);
    case OpTree(x) => PrintInjective(x, b.epoch);
    case Material(x) => PrintInjective(x, b.keyPackage);
    case MaterialEpoch(x) => PrintInjective(x, b.keyPackage);
    case Binding(g, n) =>
      UniqueSplit(g, b.group, Print(Num(n)), Print(Num(b.groupEpoch)));
      PrintInjective(Num(n), Num(b.groupEpoch));
    case LogEntry(g, e) =>
      UniqueSplit(g, b.group, Print(e), Print(b.epoch));
      PrintInjective(e, b.epoch);
    case Proposal(g, p) =>
      PrintInjective(Arr([g, p]), Arr([b.group, b.ref]));
      assert [g, p][0] == g && [g, p][1] == p;
    case ProposalRefs(g) => PrintInjective(g, b.group);
    case EpochKeys(g, d) => UniqueSplit(g, b.group, d, b.digits);
    case Plain(_, k) => PrintInjective(k, b.key);
  }

  /** Different rows never share a storage key. */
  lemma KeyBytesInjective(a: RowKey, b: RowKey)
    ensures KeyBytes(a) == KeyBytes(b) <==> a == b
  {
    if KeyBytes(a) == KeyBytes(b) {
      LabelsPrefixFree(TableOf(a), TableOf(b), Body(a) + VERSION, Body(b) + VERSION);
      CancelRight(Body(a), Body(b), VERSION);
      BodyInjective(a, b);
    }
  }

  /** A scan for a label meets exactly the rows of that table. */
  lemma LabelScanExact(r: RowKey, t: Table)
    ensures StartsWith(KeyBytes(r), Label(t)) <==> TableOf(r) == t
  {
    hide Label, Body, TableOf;
    var k := KeyBytes(r);
    if TableOf(r) == t {
      ConcatSplit(Label(t), Body(r) + VERSION);
    } else if StartsWith(k, Label(t)) {
      assert k == Label(t) + k[|Label(t)|..];
      LabelsPrefixFree(TableOf(r), t, Body(r) + VERSION, k[|Label(t)|..]);
    }
  }

  /** The group of a row in one of the two tables that are scanned by group. */
  predicate InGroup(r: RowKey, t: Table, g: GroupId) {
    (r.Binding? && t == VcBindings && r.group == g) || (r.LogEntry? && t == VcLogEntries && r.group == g)
  }

  /** The serialized key part after the group id. */
  function Second(r: RowKey): bytes
    requires r.Binding? || r.LogEntry?
  {
    if r.Binding? then Print(Num(r.groupEpoch)) else Print(r.epoch)
  }

  lemma StartsWithParts(k: bytes, a: bytes, b: bytes)
    ensures StartsWith(k, a + b) <==> StartsWith(k, a) && StartsWith(k[|a|..], b)
  {
    if StartsWith(k, a + b) {
      assert k[..|a|] == (a + b)[..|a|] == a;
      assert k[|a|..][..|b|] == (a + b)[|a|..] == b;
    }
  }

  lemma StartsWithGroup(r: RowKey, g: GroupId)
    requires r.Binding? || r.LogEntry?
    ensures StartsWith(Body(r) + VERSION, Print(g)) <==> r.group == g
  {
    hide Print;
    var s := Body(r) + VERSION;
    assert s == Print(r.group) + (Second(r) + VERSION);
    hide Body, Second;
    if r.group == g {
      ConcatSplit(Print(g), Second(r) + VERSION);
    } else if StartsWith(s, Print(g)) {
      var rest := s[|Print(g)|..];
      assert s == Print(g) + rest;
      UniqueSplit(r.group, g, Second(r) + VERSION, rest);
    }
  }

  /** A scan for a label followed by a group id meets exactly that group's rows. */
  lemma GroupScanExact(r: RowKey, t: Table, g: GroupId)
    requires t == VcBindings || t == VcLogEntries
    ensures StartsWith(KeyBytes(r), Label(t) + Print(g)) <==> InGroup(r, t, g)
  {
    StartsWithParts(KeyBytes(r), Label(t), Print(g));
    LabelScanExact(r, t);
    if TableOf(r) == t {
      ConcatSplit(Label(t), Body(r) + VERSION);
      StartsWithGroup(r, g);
    }
  }

  lemma BuildKeyIs(t: Table, body: bytes)
    ensures BuildKey(t, body) == Label(t) + body + [0, 1]
  {
    hide Label;
  }

  lemma EpochLabels()
    ensures Label(VcEpochStates) == Ascii("VcDerivationEpochState")
    ensures Label(VcOperationTrees) == Ascii("VcOperationTree")
    ensures Label(VcBindings) == Ascii("VcEmulationBinding")
    ensures Label(VcLogEntries) == Ascii("VcDerivationEpochLogEntry")
  {
    hide Ascii;
  }

  lemma MaterialLabels()
    ensures Label(RetainedMaterials) == Ascii("RetainedKeyPackageMaterial")
    ensures Label(RetainedEpochs) == Ascii("RetainedKeyPackageEpoch")
  {
    hide Ascii;
  }

  lemma QueueLabels()
    ensures Label(QueuedProposals) == Ascii("QueuedProposal")
    ensures Label(ProposalQueueRefs) == Ascii("ProposalQueueRefs")
    ensures Label(EpochKeyPairs) == Ascii("EpochKeyPairs")
  {
    hide Ascii;
  }

  /** Every storage key in full: the label, the serialized key parts in this order,
      and the two version bytes. */
  lemma KeyLayout(r: RowKey)
    ensures KeyBytes(r) ==
            match r
            case State(e) => Ascii("VcDerivationEpochState") + Print(e) + [0, 1]
            case OpTree(e) => Ascii("VcOperationTree") + Print(e) + [0, 1]
            case Material(k) => Ascii("RetainedKeyPackageMaterial") + Print(k) + [0, 1]
            case MaterialEpoch(k) => Ascii("RetainedKeyPackageEpoch") + Print(k) + [0, 1]
            case Binding(g, n) => Ascii("VcEmulationBinding") + (Print(g) + Print(Num(n))) + [0, 1]
            case LogEntry(g, e) => Ascii("VcDerivationEpochLogEntry") + (Print(g) + Print(e)) + [0, 1]
            case Proposal(g, p) => Ascii("QueuedProposal") + Print(Arr([g, p])) + [0, 1]
            case ProposalRefs(g) => Ascii("ProposalQueueRefs") + Print(g) + [0, 1]
            case EpochKeys(g, d) => Ascii("EpochKeyPairs") + (Print(g) + d) + [0, 1]
            case Plain(t, k) => Label(t) + Print(k) + [0, 1]
  {
    hide Print, Ascii, Label, BuildKey;
    EpochLabels();
    MaterialLabels();
    QueueLabels();
    BuildKeyIs(TableOf(r), Body(r));
  }
}
