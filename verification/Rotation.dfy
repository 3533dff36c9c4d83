/** The key-rotation protocol (commands/etcd.rs, `run_rotate_key` and its stage helpers) as
    a state machine on a live cluster: the config file, the config the apiserver has
    loaded, and the stored rows with the key each one is encrypted under.

    Every stage may stop after any of its parts, runs repeat, and other clients write and
    delete rows and the apiserver restarts at any time.

    Two facts about the outside are built into the actions.  A passing health gate means
    that the apiserver serves the file on disk; the program waits and asks for `/healthz`
    and checks nothing else (`ApplyLoose` is the protocol without this fact).  And no two
    runs read the same second off the clock. */
module Rotation {
  import opened Arithmetic
  import opened Text
  import Base64
  import opened Calendar
  import opened Timestamps
  import opened EncryptionConfig
  import opened KeyList

  datatype Kind = Secret | ConfigMap

  datatype RowId = RowId(kind: Kind, name: string)

  /** How a row is stored: in the clear from before encryption was enabled, or under a key. */
  datatype Row = Clear | Under(key: Key)

  /** Where the running rotation is.  `dual` is the config with the new key in front,
      `single` the one with the old keys dropped. */
  datatype Phase =
    | Idle
    | Fetched(before: string)
    | Planned(dual: string)
    | Uploaded(dual: string)
    | Installed(dual: string)
    | Touched(dual: string)
    | Gated(dual: string)
    | Secrets(dual: string, todo: set<RowId>)
    | ConfigMaps(dual: string, todo: set<RowId>)
    | Reencrypted(dual: string)
    | PlannedDrop(dual: string, single: string)
    | UploadedDrop(dual: string, single: string)
    | InstalledDrop(dual: string, single: string)
    | TouchedDrop(dual: string, single: string)
    | Complete(dual: string, single: string)

  /** `staged` is the `.new` file next to the config. */
  datatype System = System(disk: string, staged: Option<string>, loaded: string,
                           rows: map<RowId, Row>, clock: nat, phase: Phase)

  datatype Action =
    | Fetch
    | GenerateKey(bytes: seq<byte>)
    | Upload
    | UploadPart(text: string)
    | Install
    | RemoveStaged
    | Touch
    | HealthGate
    | ListRows
    | ReplaceRow(id: RowId)
    | PlanDrop
    | Stop
    // the outside
    | Reload
    | WriteRow(id: RowId)
    | DeleteRow(id: RowId)
    | Tick

  function RowsOf(rows: map<RowId, Row>, kind: Kind): set<RowId> {
    set id | id in rows && id.kind == kind
  }

  /** The apiserver encrypts under the first key of the config it has loaded. */
  function Primary(config: string): Option<Key> {
    match Keys(config)
    case Some(keys) => if keys == [] then None else Some(keys[0])
    case None => None
  }

  function Encrypt(s: System, id: RowId): Option<System> {
    match Primary(s.loaded)
    case Some(key) => Some(s.(rows := s.rows[id := Under(key)]))
    case None => None
  }

  function Enter(s: System, phase: Phase): Option<System> {
    Some(s.(phase := phase))
  }

  /** A health gate passes. */
  function PassGate(s: System): Option<System> {
    match s.phase
    case Touched(dual) => Enter(s, Gated(dual))
    case TouchedDrop(dual, single) => Enter(s, Complete(dual, single))
    case _ => None
  }

  /** What an action does, or `None` where it cannot happen. */
  function Apply(s: System, a: Action): Option<System> {
    match a
    case Stop => Enter(s, Idle)
    case Fetch =>
      if s.phase.Idle? && Trim(s.disk) != "" then Enter(s, Fetched(s.disk)) else None
    case GenerateKey(bytes) =>
      if s.phase.Fetched? && s.clock <= LAST_FOUR_DIGIT_SECOND && |bytes| == 32 then
        (match InsertPrimaryKey(s.phase.before, RotationKeyName(s.clock), Base64.Encode(bytes))
         case Ok(dual) => Some(s.(clock := s.clock + 1, phase := Planned(dual)))
         case Err(_) => None)
      else None
    case Upload =>
      (match s.phase
       case Planned(dual) => Some(s.(staged := Some(dual), phase := Uploaded(dual)))
       case PlannedDrop(dual, single) => Some(s.(staged := Some(single), phase := UploadedDrop(dual, single)))
       case _ => None)
    case UploadPart(text) =>
      if s.phase.Planned? || s.phase.PlannedDrop? then Some(s.(staged := Some(text), phase := Idle)) else None
    case Install =>
      (match (s.phase, s.staged)
       case (Uploaded(dual), Some(text)) => Some(s.(disk := text, phase := Installed(dual)))
       case (UploadedDrop(dual, single), Some(text)) => Some(s.(disk := text, phase := InstalledDrop(dual, single)))
       case _ => None)
    case RemoveStaged =>
      if s.phase.Installed? || s.phase.InstalledDrop? then Some(s.(staged := None)) else None
    case Touch =>
      (match s.phase
       case Installed(dual) => if s.staged.None? then Enter(s, Touched(dual)) else None
       case InstalledDrop(dual, single) => if s.staged.None? then Enter(s, TouchedDrop(dual, single)) else None
       case _ => None)
    case HealthGate =>
      if s.loaded != s.disk then None else PassGate(s)
    case ListRows =>
      (match s.phase
       case Gated(dual) => Enter(s, Secrets(dual, RowsOf(s.rows, Secret)))
       case Secrets(dual, todo) =>
         if todo == {} then Enter(s, ConfigMaps(dual, RowsOf(s.rows, ConfigMap))) else None
       case ConfigMaps(dual, todo) => if todo == {} then Enter(s, Reencrypted(dual)) else None
       case _ => None)
    case ReplaceRow(id) =>
      (match s.phase
       case Secrets(dual, todo) =>
         if id in todo && id in s.rows then Encrypt(s.(phase := Secrets(dual, todo - {id})), id) else None
       case ConfigMaps(dual, todo) =>
         if id in todo && id in s.rows then Encrypt(s.(phase := ConfigMaps(dual, todo - {id})), id) else None
       case _ => None)
    case PlanDrop =>
      if s.phase.Reencrypted? then
        (match DropNonPrimaryKeys(s.phase.dual)
         case Ok(single) => Enter(s, PlannedDrop(s.phase.dual, single))
         case Err(_) => None)
      else None
    case Reload => Some(s.(loaded := s.disk))
    case WriteRow(id) => Encrypt(s, id)
    case DeleteRow(id) => Some(s.(rows := s.rows - {id}))
    case Tick => Some(s.(clock := s.clock + 1))
  }

  /** The same protocol with a health gate that may also pass while the apiserver still
      serves an earlier config. */
  function ApplyLoose(s: System, a: Action): Option<System> {
    if a.HealthGate? then PassGate(s) else Apply(s, a)
  }

  // ---- safety -----------------------------------------------------------------------

  /** A row names its key, and the first key of that name decrypts it. */
  predicate Readable(row: Row, keys: seq<Key>) {
    row.Clear? || exists i :: 0 <= i < |keys| && DecryptsWith(row.key, keys, i)
  }

  predicate DecryptsWith(key: Key, keys: seq<Key>, i: nat)
    requires i < |keys|
  {
    keys[i] == key && forall j :: 0 <= j < i ==> keys[j].name != key.name
  }

  predicate AllReadable(rows: map<RowId, Row>, keys: seq<Key>) {
    forall id | id in rows :: Readable(rows[id], keys)
  }

  /** A config the editor recognises. */
  predicate IsConfig(config: string) {
    Keys(config).Some? && Keys(config).value != []
  }

  /** Every row can be read under the config on disk and under the one in use. */
  predicate Safe(s: System) {
    && IsConfig(s.disk) && IsConfig(s.loaded)
    && AllReadable(s.rows, Keys(s.disk).value)
    && AllReadable(s.rows, Keys(s.loaded).value)
  }

  /** No key of the config bears a name that a later run will generate. */
  predicate NamesArePast(keys: seq<Key>, clock: nat) {
    forall k, t | k in keys && clock <= t <= LAST_FOUR_DIGIT_SECOND :: k.name != RotationKeyName(t)
  }

  predicate Init(s: System) {
    && s.phase.Idle? && s.loaded == s.disk && Safe(s)
    && NamesArePast(Keys(s.disk).value, s.clock)
  }

  /** The config `dual` has one more key in front than the config on disk. */
  predicate IsDual(dual: string, disk: string, clock: nat)
    requires IsConfig(disk)
  {
    && IsConfig(dual)
    && Keys(dual).value[1..] == Keys(disk).value
    && (forall k | k in Keys(disk).value :: k.name != Keys(dual).value[0].name)
    && NamesArePast(Keys(dual).value, clock)
  }

  /** Every Secret outside `todo` is under the key. */
  predicate SecretsUnder(rows: map<RowId, Row>, todo: set<RowId>, key: Key) {
    forall id | id in rows && id.kind.Secret? && id !in todo :: rows[id] == Under(key)
  }

  /** Every row outside `todo` is under the key. */
  predicate AllUnder(rows: map<RowId, Row>, todo: set<RowId>, key: Key) {
    forall id | id in rows && id !in todo :: rows[id] == Under(key)
  }

  predicate OnlyHead(single: string, dual: string)
    requires IsConfig(dual)
  {
    IsConfig(single) && Keys(single).value == [Keys(dual).value[0]]
  }

  /** What holds of a phase even if a passed gate means nothing. */
  predicate LoosePhaseInv(s: System)
    requires IsConfig(s.disk)
  {
    match s.phase
    case Idle => true
    case Fetched(before) => before == s.disk
    case Planned(dual) => IsDual(dual, s.disk, s.clock)
    case Uploaded(dual) => IsDual(dual, s.disk, s.clock) && s.staged == Some(dual)
    case PlannedDrop(dual, single) => s.disk == dual && OnlyHead(single, dual)
    case UploadedDrop(dual, single) => s.disk == dual && OnlyHead(single, dual) && s.staged == Some(single)
    case InstalledDrop(dual, single) => s.disk == single && IsConfig(dual) && OnlyHead(single, dual)
    case TouchedDrop(dual, single) => s.disk == single && IsConfig(dual) && OnlyHead(single, dual)
    case Complete(dual, single) => s.disk == single && IsConfig(dual) && OnlyHead(single, dual)
    case _ => s.disk == s.phase.dual
  }

  predicate LooseInv(s: System) {
    && Safe(s)
    && NamesArePast(Keys(s.disk).value, s.clock)
    && Readable(Under(Keys(s.loaded).value[0]), Keys(s.disk).value)
    && LoosePhaseInv(s)
  }

  /** What the passed gates of the run add: the config with the new key is in use, and what
      has been rewritten since is under that key. */
  predicate GateInv(s: System)
    requires IsConfig(s.disk)
  {
    var key := Keys(s.disk).value[0];
    match s.phase
    case Gated(_) => s.loaded == s.disk
    case Secrets(_, todo) => s.loaded == s.disk && SecretsUnder(s.rows, todo, key)
    case ConfigMaps(_, todo) => s.loaded == s.disk && AllUnder(s.rows, todo, key)
    case Reencrypted(_) => s.loaded == s.disk && AllUnder(s.rows, {}, key)
    case PlannedDrop(_, _) => s.loaded == s.disk && AllUnder(s.rows, {}, key)
    case UploadedDrop(_, _) => s.loaded == s.disk && AllUnder(s.rows, {}, key)
    case InstalledDrop(dual, _) => (s.loaded == dual || s.loaded == s.disk) && AllUnder(s.rows, {}, key)
    case TouchedDrop(dual, _) => (s.loaded == dual || s.loaded == s.disk) && AllUnder(s.rows, {}, key)
    case Complete(_, _) => s.loaded == s.disk && AllUnder(s.rows, {}, key)
    case _ => true
  }

  /** Holds in every state of every execution of the program's protocol. */
  predicate Inv(s: System) {
    LooseInv(s) && GateInv(s)
  }

  /** The state in which old keys may be dropped: nothing is stored under them, and nothing
      will be written under them. */
  predicate MayDrop(s: System)
    requires s.phase.UploadedDrop? && IsConfig(s.disk)
  {
    var key := Keys(s.disk).value[0];
    && (forall id | id in s.rows :: s.rows[id].Clear? || s.rows[id] == Under(key))
    && Primary(s.loaded) == Some(key)
  }

  // ---- key lists --------------------------------------------------------------------

  lemma {:induction false} HeadIsReadable(keys: seq<Key>)
    requires keys != []
    ensures Readable(Under(keys[0]), keys)
  {
    assert DecryptsWith(keys[0], keys, 0);
  }

  /** A new key in front keeps a row readable exactly when it does not take the name of the
      row's key for another key. */
  lemma {:induction false} PrependKeepsReadable(row: Row, key: Key, keys: seq<Key>)
    requires Readable(row, keys)
    ensures Readable(row, [key] + keys) <==> row.Clear? || row.key == key || row.key.name != key.name
  {
    if row.Under? {
      var keys' := [key] + keys;
      var i :| 0 <= i < |keys| && DecryptsWith(row.key, keys, i);
      if row.key == key {
        assert DecryptsWith(row.key, keys', 0);
      } else if row.key.name != key.name {
        assert DecryptsWith(row.key, keys', i + 1);
      } else {
        assert keys'[0].name == row.key.name;
      }
    }
  }

  lemma {:induction false} ReadableKeyIsListed(row: Row, keys: seq<Key>)
    requires row.Under? && Readable(row, keys)
    ensures row.key in keys
  {
  }

  /** The names of a config are distinct from the name of a later run. */
  lemma {:induction false} NewNameIsFresh(keys: seq<Key>, clock: nat, key: Key)
    requires NamesArePast(keys, clock) && clock <= LAST_FOUR_DIGIT_SECOND
    requires key.name == RotationKeyName(clock)
    ensures forall k | k in keys :: k.name != key.name
    ensures NamesArePast([key] + keys, clock + 1)
  {
    forall k, t | k in [key] + keys && clock + 1 <= t <= LAST_FOUR_DIGIT_SECOND
      ensures k.name != RotationKeyName(t)
    {
      if k == key {
        NamesDistinct(clock, t);
      } else {
        assert k in keys;
      }
    }
  }

  // ---- every action keeps what does not depend on the gate --------------------------

  lemma {:induction false} RotationKeyNameIsClean(clock: nat)
    requires clock <= LAST_FOUR_DIGIT_SECOND
    ensures Clean(RotationKeyName(clock))
  {
    hide FormatUtcTimestamp, CivilFromEpoch, FixedDigits, ZeroPadded;
    FourDigitYear(clock);
    var c := CivilFromEpoch(clock);
    DateAndTimeAreDigits(c);
    SolidIsClean("key-" + (DatePart(c) + TimePart(c)));
  }

  predicate IsNameChar(c: char) {
    IsDigit(c) || c == 'k' || c == 'e' || c == 'y' || c == '-'
  }

  lemma {:induction false} SolidIsClean(s: string)
    requires forall i :: 0 <= i < |s| ==> IsNameChar(s[i])
    ensures Clean(s)
  {
    forall i | 0 <= i < |s| ensures !IsWhitespace(s[i]) && s[i] != '\n' && s[i] != '\r' {
      assert IsNameChar(s[i]);
    }
    TrimOfSolid(s);
  }

  lemma {:induction false} DateAndTimeAreDigits(c: Civil)
    requires Valid(c) && c.year <= 9999
    ensures forall i :: 0 <= i < |DatePart(c)| ==> IsDigit(DatePart(c)[i])
    ensures forall i :: 0 <= i < |TimePart(c)| ==> IsDigit(TimePart(c)[i])
  {
    hide DatePart, TimePart, FixedDigits;
    PartsAreFixed(c);
    FixedDigitsAreDigits(c.year, 4);
    FixedDigitsAreDigits(c.month, 2);
    FixedDigitsAreDigits(c.day, 2);
    FixedDigitsAreDigits(c.hour, 2);
    FixedDigitsAreDigits(c.minute, 2);
    FixedDigitsAreDigits(c.second, 2);
  }

  lemma {:induction false} RowSurvivesPrepend(row: Row, key: Key, keys: seq<Key>)
    requires Readable(row, keys) && forall k | k in keys :: k.name != key.name
    ensures Readable(row, [key] + keys)
  {
    PrependKeepsReadable(row, key, keys);
    if row.Under? {
      ReadableKeyIsListed(row, keys);
    }
  }

  lemma {:induction false} ReadableUnderOne(row: Row, key: Key)
    ensures Readable(row, [key]) <==> row.Clear? || row == Under(key)
  {
    if row == Under(key) {
      HeadIsReadable([key]);
    } else if row.Under? && Readable(row, [key]) {
      ReadableKeyIsListed(row, [key]);
    }
  }

  /** When dropping the old keys is safe: every row can be read right after it and after the
      next write of any row exactly when no row, and no write, still needs an old key. */
  lemma {:induction false} GateIsNeeded(s: System, id: RowId)
    requires LooseInv(s) && s.phase.UploadedDrop?
    ensures ApplyLoose(s, Install).Some?
    ensures var t := ApplyLoose(s, Install).value;
            && (LooseInv(t) <==> MayDrop(s))
            && ApplyLoose(t, WriteRow(id)).Some?
            && (Safe(t) && Safe(ApplyLoose(t, WriteRow(id)).value) <==> MayDrop(s))
  {
    hide Keys, RotationKeyName, Readable;
    var key, writeKey := Keys(s.disk).value[0], Keys(s.loaded).value[0];
    var t := ApplyLoose(s, Install).value;
    assert Keys(t.disk).value == [key];
    forall row: Row ensures Readable(row, [key]) <==> row.Clear? || row == Under(key) {
      ReadableUnderOne(row, key);
    }
    HeadIsReadable(Keys(s.loaded).value);
    var u := ApplyLoose(t, WriteRow(id)).value;
    assert u.rows[id] == Under(writeKey);
  }

  lemma {:induction false} LooseInstallKeepsInv(s: System)
    requires LooseInv(s) && s.phase.Uploaded? && Apply(s, Install).Some?
    ensures LooseInv(Apply(s, Install).value)
  {
    hide Keys, RotationKeyName, Readable;
    var s' := Apply(s, Install).value;
    var key, keys := Keys(s.phase.dual).value[0], Keys(s.disk).value;
    assert Keys(s'.disk).value == [key] + keys;
    forall id | id in s.rows ensures Readable(s.rows[id], [key] + keys) {
      RowSurvivesPrepend(s.rows[id], key, keys);
    }
    RowSurvivesPrepend(Under(Keys(s.loaded).value[0]), key, keys);
  }

  /** A secret that the program generates stands on its line as it is. */
  lemma {:induction false} SecretIsClean(bytes: seq<byte>)
    ensures Clean(Base64.Encode(bytes))
  {
    hide Base64.Encode, Base64.ValueOf, IsWhitespace;
    var secret := Base64.Encode(bytes);
    Base64.EncodedCharacters(bytes);
    forall i | 0 <= i < |secret| ensures !IsWhitespace(secret[i]) && secret[i] != '\n' {
      assert secret[i] in secret;
      CodeIsSolid(secret[i]);
    }
    TrimOfSolid(secret);
  }

  lemma {:induction false} CodeIsSolid(c: char)
    requires c == '=' || Base64.ValueOf(c).Some?
    ensures !IsWhitespace(c) && c != '\n'
  {
  }

  lemma {:induction false} LooseGenerateKeepsInv(s: System, bytes: seq<byte>)
    requires LooseInv(s) && Apply(s, GenerateKey(bytes)).Some?
    ensures LooseInv(Apply(s, GenerateKey(bytes)).value)
  {
    hide Keys, InsertPrimaryKey, RotationKeyName, Clean, Readable, Base64.Encode;
    var name, secret := RotationKeyName(s.clock), Base64.Encode(bytes);
    RotationKeyNameIsClean(s.clock);
    SecretIsClean(bytes);
    InsertPrepends(s.disk, name, secret);
    NewNameIsFresh(Keys(s.disk).value, s.clock, Key(name, secret));
  }

  lemma {:induction false} LooseWriteKeepsInv(s: System, id: RowId)
    requires LooseInv(s) && Encrypt(s, id).Some?
    ensures LooseInv(Encrypt(s, id).value)
  {
    hide Keys, RotationKeyName, Readable;
    HeadIsReadable(Keys(s.loaded).value);
  }

  lemma {:induction false} LooseReplaceKeepsInv(s: System, id: RowId)
    requires LooseInv(s) && Apply(s, ReplaceRow(id)).Some?
    ensures LooseInv(Apply(s, ReplaceRow(id)).value)
  {
    hide Keys, RotationKeyName, Readable;
    HeadIsReadable(Keys(s.loaded).value);
  }

  lemma {:induction false} LoosePlanDropKeepsInv(s: System)
    requires LooseInv(s) && Apply(s, PlanDrop).Some?
    ensures LooseInv(Apply(s, PlanDrop).value)
  {
    hide Keys, DropNonPrimaryKeys, RotationKeyName, Readable;
    DropKeepsPrimary(s.phase.dual);
  }

  lemma {:induction false} LooseOtherKeepsInv(s: System, a: Action)
    requires LooseInv(s) && ApplyLoose(s, a).Some?
    requires !(a.GenerateKey? || a.Install? || a.WriteRow? || a.ReplaceRow? || a.PlanDrop?)
    ensures LooseInv(ApplyLoose(s, a).value)
  {
    hide Keys, InsertPrimaryKey, DropNonPrimaryKeys, RotationKeyName, Readable, Trim;
    if a.Reload? {
      HeadIsReadable(Keys(s.disk).value);
    }
  }

  lemma {:induction false} LooseStepKeepsInv(s: System, a: Action)
    requires LooseInv(s) && ApplyLoose(s, a).Some?
    requires s.phase.UploadedDrop? && a.Install? ==> MayDrop(s)
    ensures LooseInv(ApplyLoose(s, a).value)
  {
    hide LooseInv, Encrypt, MayDrop;
    match a
    case GenerateKey(bytes) => LooseGenerateKeepsInv(s, bytes);
    case Install =>
      if s.phase.Uploaded? {
        LooseInstallKeepsInv(s);
      } else {
        GateIsNeeded(s, RowId(Secret, ""));
      }
    case WriteRow(id) => LooseWriteKeepsInv(s, id);
    case ReplaceRow(id) => LooseReplaceKeepsInv(s, id);
    case PlanDrop => LoosePlanDropKeepsInv(s);
    case _ => LooseOtherKeepsInv(s, a);
  }

  // ---- every action keeps the invariant ---------------------------------------------

  /** With the program's gate, old keys are only dropped when they may be. */
  lemma {:induction false} GateLetsDrop(s: System)
    requires Inv(s) && s.phase.UploadedDrop?
    ensures MayDrop(s)
  {
    hide Keys, RotationKeyName, Readable;
  }

  lemma {:induction false} WriteKeepsGateInv(s: System, a: Action)
    requires Inv(s) && Apply(s, a).Some? && (a.WriteRow? || a.ReplaceRow?)
    requires LooseInv(Apply(s, a).value)
    ensures GateInv(Apply(s, a).value)
  {
    hide Keys, RotationKeyName, Readable, IsDual;
  }

  lemma {:induction false} OtherKeepsGateInv(s: System, a: Action)
    requires Inv(s) && Apply(s, a).Some? && !a.WriteRow? && !a.ReplaceRow?
    requires LooseInv(Apply(s, a).value)
    ensures GateInv(Apply(s, a).value)
  {
    hide Keys, InsertPrimaryKey, DropNonPrimaryKeys, RotationKeyName, Readable, Trim, IsDual;
  }

  lemma {:induction false} StepKeepsInv(s: System, a: Action)
    requires Inv(s) && Apply(s, a).Some?
    ensures Inv(Apply(s, a).value)
  {
    hide Apply, LooseInv, GateInv, MayDrop;
    ApplyIsLoose(s, a);
    if s.phase.UploadedDrop? {
      GateLetsDrop(s);
    }
    LooseStepKeepsInv(s, a);
    if a.WriteRow? || a.ReplaceRow? {
      WriteKeepsGateInv(s, a);
    } else {
      OtherKeepsGateInv(s, a);
    }
  }

  lemma {:induction false} ApplyIsLoose(s: System, a: Action)
    ensures Apply(s, a).Some? ==> ApplyLoose(s, a) == Apply(s, a)
  {
  }

  /** The run neither makes nor removes a row, and it rewrites only rows that it has listed and not
      yet rewritten, each under the key that is in use. */
  lemma {:induction false} RunKeepsRows(s: System, a: Action)
    requires Apply(s, a).Some? && !a.WriteRow? && !a.DeleteRow?
    ensures var t := Apply(s, a).value;
            && t.rows.Keys == s.rows.Keys
            && forall id | id in s.rows && t.rows[id] != s.rows[id] ::
                 && (s.phase.Secrets? || s.phase.ConfigMaps?) && id in s.phase.todo
                 && (t.phase.Secrets? || t.phase.ConfigMaps?) && t.phase.todo == s.phase.todo - {id}
                 && Primary(s.loaded).Some? && t.rows[id] == Under(Primary(s.loaded).value)
  {
    hide Keys, InsertPrimaryKey, DropNonPrimaryKeys, RotationKeyName, Trim, Primary, Base64.Encode;
  }

  // ---- whole executions -------------------------------------------------------------

  ghost predicate Next(s: System, s': System) {
    exists a :: Apply(s, a) == Some(s')
  }

  ghost predicate Execution(run: seq<System>) {
    run != [] && Init(run[0]) && forall i :: 0 <= i < |run| - 1 ==> Next(run[i], run[i + 1])
  }

  lemma {:induction false} StartIsFine(s: System)
    requires Init(s)
    ensures Inv(s) && LooseInv(s)
  {
    hide Keys, Readable, RotationKeyName;
    HeadIsReadable(Keys(s.disk).value);
  }

  lemma {:induction false} ExecutionKeepsInv(run: seq<System>, i: nat)
    requires Execution(run) && i < |run|
    ensures Inv(run[i])
  {
    hide Inv, Apply, Init;
    if i == 0 {
      StartIsFine(run[0]);
    } else {
      ExecutionKeepsInv(run, i - 1);
      assert Next(run[i - 1], run[i - 1 + 1]);
      var a :| Apply(run[i - 1], a) == Some(run[i]);
      StepKeepsInv(run[i - 1], a);
    }
  }

  /** Over every execution, each row stays readable under the config on disk and under the
      config the apiserver has loaded. */
  lemma {:induction false} RowsStayReadable(run: seq<System>)
    requires Execution(run)
    ensures forall i :: 0 <= i < |run| ==> Safe(run[i])
  {
    forall i | 0 <= i < |run| ensures Safe(run[i]) {
      ExecutionKeepsInv(run, i);
    }
  }

  /** A key leaves the config on disk only when no row is stored under it and the apiserver
      no longer writes under it. */
  lemma {:induction false} KeysAreDroppedUnused(run: seq<System>, i: nat, key: Key)
    requires Execution(run) && i + 1 < |run|
    requires Keys(run[i].disk).Some? && key in Keys(run[i].disk).value
    requires Keys(run[i + 1].disk).Some? && key !in Keys(run[i + 1].disk).value
    ensures forall id | id in run[i].rows :: run[i].rows[id] != Under(key)
    ensures Primary(run[i].loaded) != Some(key)
  {
    hide Keys, InsertPrimaryKey, DropNonPrimaryKeys, RotationKeyName, Readable, Trim;
    ExecutionKeepsInv(run, i);
    assert Next(run[i], run[i + 1]);
    var a :| Apply(run[i], a) == Some(run[i + 1]);
    DropStepIsUnused(run[i], a, key);
  }

  lemma {:induction false} DropStepIsUnused(s: System, a: Action, key: Key)
    requires Inv(s) && Apply(s, a).Some?
    requires key in Keys(s.disk).value
    requires IsConfig(Apply(s, a).value.disk) && key !in Keys(Apply(s, a).value.disk).value
    ensures forall id | id in s.rows :: s.rows[id] != Under(key)
    ensures Primary(s.loaded) != Some(key)
  {
    hide Keys, InsertPrimaryKey, DropNonPrimaryKeys, RotationKeyName, Readable, Trim;
    assert a.Install?;
  }

  /** A rotation that passes its second health gate leaves one key, in use, with every row
      under it. */
  lemma {:induction false} CompleteRotation(run: seq<System>, i: nat)
    requires Execution(run) && i < |run| && run[i].phase.Complete?
    ensures var s := run[i];
            && s.loaded == s.disk && Keys(s.disk).Some? && |Keys(s.disk).value| == 1
            && forall id | id in s.rows :: s.rows[id] == Under(Keys(s.disk).value[0])
  {
    hide Keys, RotationKeyName, Readable;
    ExecutionKeepsInv(run, i);
  }

  // ---- whole executions with a gate that proves nothing -----------------------------

  ghost predicate LooseExecution(run: seq<System>, actions: seq<Action>) {
    && |run| == |actions| + 1 && Init(run[0])
    && forall i :: 0 <= i < |actions| ==> ApplyLoose(run[i], actions[i]) == Some(run[i + 1])
  }

  /** Whatever the gates let pass, every row stays readable as long as old keys are dropped
      only where they may be. */
  lemma {:induction false} SafeIfDropsAre(run: seq<System>, actions: seq<Action>, n: nat)
    requires LooseExecution(run, actions) && n < |run|
    requires forall i :: 0 <= i < n && run[i].phase.UploadedDrop? && actions[i].Install? ==>
               IsConfig(run[i].disk) && MayDrop(run[i])
    ensures LooseInv(run[n])
  {
    hide LooseInv, ApplyLoose, Init, MayDrop;
    if n == 0 {
      StartIsFine(run[0]);
    } else {
      SafeIfDropsAre(run, actions, n - 1);
      assert ApplyLoose(run[n - 1], actions[n - 1]) == Some(run[n - 1 + 1]);
      LooseStepKeepsInv(run[n - 1], actions[n - 1]);
    }
  }

  /** `run` leads from `s` to `t`. */
  ghost predicate EndsIn(run: seq<System>, actions: seq<Action>, s: System, t: System) {
    LooseExecution(run, actions) && run[0] == s && run[|run| - 1] == t
  }

  lemma {:induction false} OneMore(run: seq<System>, actions: seq<Action>, s: System, t: System, a: Action)
    returns (run': seq<System>, actions': seq<Action>)
    requires EndsIn(run, actions, s, t) && ApplyLoose(t, a).Some?
    ensures EndsIn(run', actions', s, ApplyLoose(t, a).value)
  {
    hide ApplyLoose, Init;
    run', actions' := run + [ApplyLoose(t, a).value], actions + [a];
  }

  /** With the new config in place and the gate passed, but the old config still in use. */
  function StaleAtGate(s: System, dual: string): System {
    s.(disk := dual, staged := None, clock := s.clock + 1, phase := Gated(dual))
  }

  lemma {:induction false} ReachGate(s: System, bytes: seq<byte>)
    returns (run: seq<System>, actions: seq<Action>, dual: string)
    requires Init(s) && s.clock <= LAST_FOUR_DIGIT_SECOND && |bytes| == 32 && Trim(s.disk) != ""
    ensures EndsIn(run, actions, s, StaleAtGate(s, dual))
    ensures IsConfig(dual) && Keys(dual).value[0].name == RotationKeyName(s.clock)
  {
    hide EndsIn, Keys, InsertPrimaryKey, RotationKeyName, Clean, Trim, Init, Base64.Encode;
    var name, secret := RotationKeyName(s.clock), Base64.Encode(bytes);
    RotationKeyNameIsClean(s.clock);
    SecretIsClean(bytes);
    Start(s);
    InsertPrepends(s.disk, name, secret);
    dual := InsertPrimaryKey(s.disk, name, secret).value;
    run, actions := OneMore([s], [], s, s, Fetch);
    var t := s.(phase := Fetched(s.disk));
    run, actions := OneMore(run, actions, s, t, GenerateKey(bytes));
    t := s.(clock := s.clock + 1, phase := Planned(dual));
    run, actions := OneMore(run, actions, s, t, Upload);
    t := t.(staged := Some(dual), phase := Uploaded(dual));
    run, actions := OneMore(run, actions, s, t, Install);
    t := t.(disk := dual, phase := Installed(dual));
    run, actions := OneMore(run, actions, s, t, RemoveStaged);
    t := t.(staged := None);
    run, actions := OneMore(run, actions, s, t, Touch);
    t := t.(phase := Touched(dual));
    run, actions := OneMore(run, actions, s, t, HealthGate);
  }

  lemma {:induction false} Start(s: System)
    requires Init(s)
    ensures EndsIn([s], [], s, s) && IsConfig(s.disk) && s.phase.Idle?
  {
  }

  lemma {:induction false} Reencrypt(run: seq<System>, actions: seq<Action>, s: System, t: System, id: RowId)
    returns (run': seq<System>, actions': seq<Action>)
    requires EndsIn(run, actions, s, t) && t.phase.Gated? && t.rows.Keys == {id} && id.kind.Secret?
    requires Primary(t.loaded).Some?
    ensures var rows := t.rows[id := Under(Primary(t.loaded).value)];
            EndsIn(run', actions', s, t.(rows := rows, phase := Reencrypted(t.phase.dual)))
  {
    hide EndsIn, Primary;
    var dual := t.phase.dual;
    run', actions' := OneMore(run, actions, s, t, ListRows);
    assert RowsOf(t.rows, Secret) == {id};
    var u := t.(phase := Secrets(dual, {id}));
    run', actions' := OneMore(run', actions', s, u, ReplaceRow(id));
    u := u.(rows := t.rows[id := Under(Primary(t.loaded).value)], phase := Secrets(dual, {id} - {id}));
    assert {id} - {id} == {};
    run', actions' := OneMore(run', actions', s, u, ListRows);
    assert RowsOf(u.rows, ConfigMap) == {};
    u := u.(phase := ConfigMaps(dual, {}));
    run', actions' := OneMore(run', actions', s, u, ListRows);
  }

  lemma {:induction false} DropStale(run: seq<System>, actions: seq<Action>, s: System, t: System)
    returns (run': seq<System>, actions': seq<Action>, u: System)
    requires EndsIn(run, actions, s, t) && t.phase.Reencrypted? && IsConfig(t.phase.dual)
    ensures EndsIn(run', actions', s, u) && u.rows == t.rows
    ensures Keys(u.disk) == Some([Keys(t.phase.dual).value[0]])
  {
    hide EndsIn, Keys, DropNonPrimaryKeys;
    var dual := t.phase.dual;
    DropKeepsPrimary(dual);
    var single := DropNonPrimaryKeys(dual).value;
    run', actions' := OneMore(run, actions, s, t, PlanDrop);
    u := t.(phase := PlannedDrop(dual, single));
    run', actions' := OneMore(run', actions', s, u, Upload);
    u := u.(staged := Some(single), phase := UploadedDrop(dual, single));
    run', actions' := OneMore(run', actions', s, u, Install);
    u := u.(disk := single, phase := InstalledDrop(dual, single));
  }

  /** From every start with one stored Secret, a gate that passes too early makes that row
      unreadable: it is rewritten under the old key, and the old key is dropped. */
  lemma {:induction false} StaleGateLosesRow(s: System, bytes: seq<byte>, id: RowId)
    returns (run: seq<System>, actions: seq<Action>, t: System)
    requires Init(s) && s.clock <= LAST_FOUR_DIGIT_SECOND && |bytes| == 32 && Trim(s.disk) != ""
    requires s.rows.Keys == {id} && id.kind.Secret?
    ensures EndsIn(run, actions, s, t)
    ensures IsConfig(t.disk) && id in t.rows && !Readable(t.rows[id], Keys(t.disk).value)
  {
    hide EndsIn, Keys, RotationKeyName, Readable, Primary, Init, DecryptsWith, LooseExecution, RowsOf, Clean, Trim;
    var stale := StaleKey(s);
    var dual;
    run, actions, dual := ReachGate(s, bytes);
    run, actions := Reencrypt(run, actions, s, StaleAtGate(s, dual), id);
    var u := StaleAtGate(s, dual).(rows := s.rows[id := Under(stale)], phase := Reencrypted(dual));
    run, actions, t := DropStale(run, actions, s, u);
    ReadableUnderOne(Under(stale), Keys(dual).value[0]);
  }

  /** The key that is in use at the start is not the one that the run will generate. */
  lemma {:induction false} StaleKey(s: System) returns (key: Key)
    requires Init(s) && s.clock <= LAST_FOUR_DIGIT_SECOND
    ensures Primary(s.loaded) == Some(key) && key.name != RotationKeyName(s.clock)
  {
    hide Keys, RotationKeyName, Readable;
    key := Keys(s.disk).value[0];
    assert key in Keys(s.disk).value;
  }

  // ---- a run that nothing disturbs --------------------------------------------------

  /** `run` is an execution of the program's protocol from `s` to `t`. */
  ghost predicate Reaches(run: seq<System>, s: System, t: System) {
    Execution(run) && run[0] == s && run[|run| - 1] == t
  }

  lemma {:induction false} StepOn(run: seq<System>, s: System, t: System, a: Action) returns (run': seq<System>)
    requires Reaches(run, s, t) && Apply(t, a).Some?
    ensures Reaches(run', s, Apply(t, a).value)
  {
    hide Apply, Init;
    run' := run + [Apply(t, a).value];
    assert Next(t, Apply(t, a).value);
    forall i | 0 <= i < |run'| - 1 ensures Next(run'[i], run'[i + 1]) {
      if i < |run| - 1 {
        assert Next(run[i], run[i + 1]);
      }
    }
  }

  /** The head of the new config is the generated name with the 32 generated bytes. */
  lemma {:induction false} NewKeyHoldsBytes(s: System, bytes: seq<byte>)
    requires LooseInv(s) && Apply(s, GenerateKey(bytes)).Some?
    ensures var s' := Apply(s, GenerateKey(bytes)).value;
            && s'.phase.Planned? && IsConfig(s'.phase.dual) && IsConfig(s.disk)
            && var keys := Keys(s'.phase.dual).value;
               && keys[1..] == Keys(s.disk).value && keys[0].name == RotationKeyName(s.clock)
               && Base64.Decode(keys[0].secret) == Some(bytes) && |bytes| == 32
  {
    hide Keys, InsertPrimaryKey, RotationKeyName, Clean, Readable, Base64.Encode, Base64.Decode;
    var name, secret := RotationKeyName(s.clock), Base64.Encode(bytes);
    RotationKeyNameIsClean(s.clock);
    SecretIsClean(bytes);
    InsertPrepends(s.disk, name, secret);
    Base64.RoundTrip(bytes);
  }

  /** The rows with those of `ids` under the key. */
  function Rewritten(rows: map<RowId, Row>, ids: set<RowId>, key: Key): map<RowId, Row> {
    map id | id in rows :: if id in ids then Under(key) else rows[id]
  }

  lemma {:induction false} RewriteOne(rows: map<RowId, Row>, ids: set<RowId>, key: Key, id: RowId)
    requires id in ids && id in rows
    ensures Rewritten(rows[id := Under(key)], ids - {id}, key) == Rewritten(rows, ids, key)
  {
  }

  lemma {:induction false} RewriteNone(rows: map<RowId, Row>, key: Key)
    ensures Rewritten(rows, {}, key) == rows
  {
  }

  lemma {:induction false} RewriteAll(rows: map<RowId, Row>, key: Key)
    ensures Rewritten(Rewritten(rows, RowsOf(rows, Secret), key), RowsOf(rows, ConfigMap), key)
         == map id | id in rows :: Under(key)
    ensures RowsOf(Rewritten(rows, RowsOf(rows, Secret), key), ConfigMap) == RowsOf(rows, ConfigMap)
  {
    assert forall id | id in rows :: id.kind == Secret || id.kind == ConfigMap;
  }

  predicate IsRewriting(phase: Phase, todo: set<RowId>) {
    (phase.Secrets? || phase.ConfigMaps?) && phase.todo == todo
  }

  /** The loop over the listed rows of one kind. */
  lemma {:induction false} ReplaceAll(run: seq<System>, s: System, t: System, todo: set<RowId>, key: Key)
    returns (run': seq<System>, t': System)
    requires Reaches(run, s, t) && IsRewriting(t.phase, todo) && todo <= t.rows.Keys && Primary(t.loaded) == Some(key)
    ensures t' == t.(rows := Rewritten(t.rows, todo, key),
                     phase := if t.phase.Secrets? then Secrets(t.phase.dual, {}) else ConfigMaps(t.phase.dual, {}))
    ensures Reaches(run', s, t')
    decreases |todo|
  {
    hide Reaches, Primary, Rewritten;
    if todo == {} {
      run', t' := run, t;
      RewriteNone(t.rows, key);
    } else {
      var id :| id in todo;
      var u := Apply(t, ReplaceRow(id)).value;
      assert u.rows == t.rows[id := Under(key)];
      run' := StepOn(run, s, t, ReplaceRow(id));
      RewriteOne(t.rows, todo, key, id);
      run', t' := ReplaceAll(run', s, u, todo - {id}, key);
    }
  }

  /** The three parts of an install, the restart it causes, and the gate. */
  lemma {:induction false} InstallAll(run: seq<System>, s: System, t: System, text: string)
    returns (run': seq<System>)
    requires Reaches(run, s, t) && t.staged == Some(text)
    requires t.phase.Uploaded? || t.phase.UploadedDrop?
    ensures var phase := if t.phase.Uploaded? then Gated(t.phase.dual) else Complete(t.phase.dual, t.phase.single);
            Reaches(run', s, t.(disk := text, loaded := text, staged := None, phase := phase))
  {
    hide Reaches;
    var first := t.phase.Uploaded?;
    run' := StepOn(run, s, t, Install);
    var u := t.(disk := text,
                phase := if first then Installed(t.phase.dual) else InstalledDrop(t.phase.dual, t.phase.single));
    run' := StepOn(run', s, u, RemoveStaged);
    u := u.(staged := None);
    run' := StepOn(run', s, u, Touch);
    u := u.(phase := if first then Touched(t.phase.dual) else TouchedDrop(t.phase.dual, t.phase.single));
    run' := StepOn(run', s, u, Reload);
    u := u.(loaded := text);
    run' := StepOn(run', s, u, HealthGate);
  }

  /** From every start the protocol can run to its end when nothing disturbs it: one key is
      left, it holds the generated bytes under the generated name, every row is under it, and the
      file is the one that the editor makes by putting the key in front and dropping the others. */
  lemma {:induction false} QuietRotation(s: System, bytes: seq<byte>)
    returns (run: seq<System>, t: System, key: Key)
    requires Init(s) && s.clock <= LAST_FOUR_DIGIT_SECOND && |bytes| == 32 && Trim(s.disk) != ""
    ensures Reaches(run, s, t) && t.phase.Complete?
    ensures key.name == RotationKeyName(s.clock) && Base64.Decode(key.secret) == Some(bytes)
    ensures t.loaded == t.disk && t.staged.None? && t.clock == s.clock + 1 && Keys(t.disk) == Some([key])
    ensures t.rows == map id | id in s.rows :: Under(key)
    ensures InsertPrimaryKey(s.disk, key.name, key.secret).Ok?
            && DropNonPrimaryKeys(InsertPrimaryKey(s.disk, key.name, key.secret).value) == Ok(t.disk)
  {
    hide Reaches, Keys, InsertPrimaryKey, DropNonPrimaryKeys, RotationKeyName, Clean, Trim, Readable, NamesArePast,
         Base64.Encode, Base64.Decode, Rewritten, RowsOf;
    key := Key(RotationKeyName(s.clock), Base64.Encode(bytes));
    RotationKeyNameIsClean(s.clock);
    SecretIsClean(bytes);
    Base64.RoundTrip(bytes);
    InsertPrepends(s.disk, key.name, key.secret);
    var dual := InsertPrimaryKey(s.disk, key.name, key.secret).value;
    assert Keys(dual).value[0] == key;
    DropKeepsPrimary(dual);
    var single := DropNonPrimaryKeys(dual).value;
    run := ToGate(s, bytes, dual);
    var u := s.(disk := dual, loaded := dual, staged := None, clock := s.clock + 1, phase := Gated(dual));
    run := ToReencrypted(run, s, u, key);
    u := u.(rows := map id | id in s.rows :: Under(key), phase := Reencrypted(dual));
    run := StepOn(run, s, u, PlanDrop);
    u := u.(phase := PlannedDrop(dual, single));
    run := StepOn(run, s, u, Upload);
    u := u.(staged := Some(single), phase := UploadedDrop(dual, single));
    run := InstallAll(run, s, u, single);
    t := u.(disk := single, loaded := single, staged := None, phase := Complete(dual, single));
  }

  lemma {:induction false} ToGate(s: System, bytes: seq<byte>, dual: string) returns (run: seq<System>)
    requires Init(s) && s.clock <= LAST_FOUR_DIGIT_SECOND && |bytes| == 32 && Trim(s.disk) != ""
    requires InsertPrimaryKey(s.disk, RotationKeyName(s.clock), Base64.Encode(bytes)) == Ok(dual)
    ensures Reaches(run, s, s.(disk := dual, loaded := dual, staged := None, clock := s.clock + 1, phase := Gated(dual)))
  {
    hide Reaches, Keys, InsertPrimaryKey, RotationKeyName, Trim, Init, Base64.Encode;
    run := Standing(s);
    run := StepOn(run, s, s, Fetch);
    var u := s.(phase := Fetched(s.disk));
    run := StepOn(run, s, u, GenerateKey(bytes));
    u := s.(clock := s.clock + 1, phase := Planned(dual));
    run := StepOn(run, s, u, Upload);
    u := u.(staged := Some(dual), phase := Uploaded(dual));
    run := InstallAll(run, s, u, dual);
  }

  lemma {:induction false} Standing(s: System) returns (run: seq<System>)
    requires Init(s)
    ensures Reaches(run, s, s) && s.phase.Idle?
  {
    run := [s];
  }

  lemma {:induction false} ToReencrypted(run: seq<System>, s: System, t: System, key: Key) returns (run': seq<System>)
    requires Reaches(run, s, t) && t.phase.Gated? && Primary(t.loaded) == Some(key)
    ensures Reaches(run', s, t.(rows := map id | id in t.rows :: Under(key), phase := Reencrypted(t.phase.dual)))
  {
    hide Reaches, Primary, Rewritten;
    var dual, all := t.phase.dual, RowsOf(t.rows, Secret);
    RewriteAll(t.rows, key);
    run' := StepOn(run, s, t, ListRows);
    var u := t.(phase := Secrets(dual, all));
    run', u := ReplaceAll(run', s, u, all, key);
    run' := StepOn(run', s, u, ListRows);
    u := u.(phase := ConfigMaps(dual, RowsOf(t.rows, ConfigMap)));
    run', u := ReplaceAll(run', s, u, RowsOf(t.rows, ConfigMap), key);
    run' := StepOn(run', s, u, ListRows);
  }
}
