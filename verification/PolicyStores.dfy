/** The tenant policy store of `core/policy.py`: a forgiving loader, a strict validator, and the decision. */
module PolicyStores {
  import opened Common

  type Text = string
  /** A parsed value: an object, or anything else. */
  datatype Json = Object(fields: map<Text, Json>) | Scalar(text: Text)

  /** What is found at the store's path. */
  datatype File = Missing | Unreadable | Parsed(raw: Json)

  const VALID_ACTIONS: seq<Text> := ["BLOCK", "RESTRICT", "ALLOW", "REVIEW"]
  const BLOCK := VALID_ACTIONS[0]

  predicate ValidAction(action: Text) { action in VALID_ACTIONS }

  /** The text form of a value, upper-cased. */
  type Reading = Json -> Text

  type RiskMap = map<Text, Text>
  type Policies = map<Text, RiskMap>
  const DEFAULT := "default"

  // ---- What the file says ----

  predicate HasTenants(file: File) { file.Parsed? && file.raw.Object? && "tenants" in file.raw.fields }

  predicate HasTenantTable(file: File) { HasTenants(file) && file.raw.fields["tenants"].Object? }

  function Tenants(file: File): map<Text, Json> {
    if HasTenantTable(file) then file.raw.fields["tenants"].fields else map[]
  }

  /** None: the entry carries no usable table of capabilities. */
  function RawPolicies(entry: Json): Option<map<Text, Json>> {
    if entry.Object? && "policies" in entry.fields && entry.fields["policies"].Object?
       && |entry.fields["policies"].fields| != 0
    then Some(entry.fields["policies"].fields) else None
  }

  function RawDefault(file: File, read: Reading): Text
    requires HasTenants(file)
  {
    if "default_action" in file.raw.fields then read(file.raw.fields["default_action"]) else BLOCK
  }

  // ---- What the loader keeps ----

  function CleanRisks(risks: map<Text, Json>, read: Reading): RiskMap {
    map r | r in risks && ValidAction(read(risks[r])) :: read(risks[r])
  }

  /** A capability is kept when it is an object with some valid action. */
  predicate Kept(value: Json, read: Reading) {
    value.Object? && exists r :: r in value.fields && ValidAction(read(value.fields[r]))
  }

  function CleanPolicies(policies: map<Text, Json>, read: Reading): Policies {
    map c | c in policies && Kept(policies[c], read) :: CleanRisks(policies[c].fields, read)
  }

  function ParseEntry(entry: Json, read: Reading): Option<Policies> {
    match RawPolicies(entry)
    case None => None
    case Some(raw) => if CleanPolicies(raw, read) == map[] then None else Some(CleanPolicies(raw, read))
  }

  function LoadedTenants(file: File, read: Reading): map<Text, Policies> {
    map t | t in Tenants(file) && ParseEntry(Tenants(file)[t], read).Some? :: ParseEntry(Tenants(file)[t], read).value
  }

  /** A loaded store as a value. */
  datatype State = State(tenants: map<Text, Policies>, defaultAction: Text, usable: bool)

  /** A load replaces the tenants, but a file that is rejected early leaves the old default action behind. */
  function LoadOver(previous: Text, file: File, read: Reading): State {
    State(LoadedTenants(file, read),
          if !HasTenants(file) then previous
          else if ValidAction(RawDefault(file, read)) then RawDefault(file, read)
          else BLOCK,
          DEFAULT in LoadedTenants(file, read))
  }

  function Load(file: File, read: Reading): State { LoadOver(BLOCK, file, read) }

  lemma KeptHasActions(value: Json, read: Reading)
    ensures Kept(value, read) <==> value.Object? && CleanRisks(value.fields, read) != map[]
  {
    if Kept(value, read) {
      var r :| r in value.fields && ValidAction(read(value.fields[r]));
      assert r in CleanRisks(value.fields, read);
    } else if value.Object? {
      assert CleanRisks(value.fields, read) == map[];
    }
  }

  // ---- Building a map key by key ----

  /** The part of a map whose keys have been visited. */
  ghost function Visited<K, V>(m: map<K, V>, todo: set<K>): map<K, V> { map k | k in m && k !in todo :: m[k] }

  lemma VisitNone<K, V>(m: map<K, V>, todo: set<K>)
    requires m.Keys <= todo
    ensures Visited(m, todo) == map[]
  {
  }

  lemma VisitOne<K, V>(m: map<K, V>, todo: set<K>, k: K)
    requires k in todo
    ensures Visited(m, todo - {k}) == if k in m then Visited(m, todo)[k := m[k]] else Visited(m, todo)
  {
  }

  lemma VisitAll<K, V>(m: map<K, V>)
    ensures Visited(m, {}) == m
  {
  }

  // ---- The store ----

  class PolicyStore {
    var tenants: map<Text, Policies>
    var defaultAction: Text
    var usable: bool
    var loaded: bool

    ghost function Value(): State reads this { State(tenants, defaultAction, usable) }

    constructor ()
      ensures !loaded && Value() == State(map[], BLOCK, false)
    {
      tenants, defaultAction, usable, loaded := map[], BLOCK, false, false;
    }

    method LoadFile(file: File, read: Reading, force: bool)
      modifies this
      ensures loaded
      ensures Value() == if old(loaded) && !force then old(Value()) else LoadOver(old(defaultAction), file, read)
    {
      if loaded && !force { return; }
      tenants, usable, loaded := map[], false, true;
      if !file.Parsed? || !file.raw.Object? || "tenants" !in file.raw.fields { return; }
      var raw := file.raw.fields;
      defaultAction := if "default_action" in raw then read(raw["default_action"]) else BLOCK;
      if defaultAction !in VALID_ACTIONS { defaultAction := BLOCK; }
      if !raw["tenants"].Object? { return; }
      var todo := raw["tenants"].fields.Keys;
      ghost var result := LoadedTenants(file, read);
      VisitNone(result, todo);
      while todo != {}
        invariant todo <= Tenants(file).Keys
        invariant !usable && loaded
        invariant defaultAction == LoadOver(old(defaultAction), file, read).defaultAction
        invariant tenants == Visited(result, todo)
        decreases |todo|
      {
        var t :| t in todo;
        var parsed := ParseTenantEntry(raw["tenants"].fields[t], read);
        if parsed.Some? {
          tenants := tenants[t := parsed.value];
        }
        VisitOne(result, todo, t);
        todo := todo - {t};
      }
      VisitAll(result);
      usable := DEFAULT in tenants;
    }

    /** The policy that applies to a tenant, and whose it is; none for an unusable store. */
    method Get(file: File, read: Reading, tenant: Text) returns (r: Option<(Text, Policies)>)
      requires usable ==> DEFAULT in tenants
      modifies this
      ensures Value() == if old(loaded) then old(Value()) else LoadOver(old(defaultAction), file, read)
      ensures usable ==> DEFAULT in tenants
      ensures r == Resolve(Value(), tenant)
    {
      LoadFile(file, read, false);
      if !usable { return None; }
      if tenant in tenants { return Some((tenant, tenants[tenant])); }
      r := Some((DEFAULT, tenants[DEFAULT]));
    }
  }

  /** One tenant's entry: never fails, and keeps exactly the valid part. */
  method ParseTenantEntry(entry: Json, read: Reading) returns (r: Option<Policies>)
    ensures r == ParseEntry(entry, read)
  {
    var raw := RawPolicies(entry);
    if raw.None? { return None; }
    var cleaned: Policies := map[];
    var todo := raw.value.Keys;
    ghost var result := CleanPolicies(raw.value, read);
    VisitNone(result, todo);
    while todo != {}
      invariant todo <= raw.value.Keys
      invariant cleaned == Visited(result, todo)
      decreases |todo|
    {
      var c :| c in todo;
      if raw.value[c].Object? {
        var risks := ParseRiskMap(raw.value[c].fields, read);
        if risks != map[] {
          cleaned := cleaned[c := risks];
        }
      }
      KeptHasActions(raw.value[c], read);
      VisitOne(result, todo, c);
      todo := todo - {c};
    }
    VisitAll(result);
    r := if cleaned == map[] then None else Some(cleaned);
  }

  method ParseRiskMap(risks: map<Text, Json>, read: Reading) returns (cleaned: RiskMap)
    ensures cleaned == CleanRisks(risks, read)
  {
    cleaned := map[];
    var todo := risks.Keys;
    ghost var result := CleanRisks(risks, read);
    VisitNone(result, todo);
    while todo != {}
      invariant todo <= risks.Keys
      invariant cleaned == Visited(result, todo)
      decreases |todo|
    {
      var r :| r in todo;
      var action := read(risks[r]);
      if action in VALID_ACTIONS { cleaned := cleaned[r := action]; }
      VisitOne(result, todo, r);
      todo := todo - {r};
    }
    VisitAll(result);
  }

  // ---- The decision ----

  function Resolve(s: State, tenant: Text): Option<(Text, Policies)>
    requires s.usable ==> DEFAULT in s.tenants
  {
    if !s.usable then None
    else if tenant in s.tenants then Some((tenant, s.tenants[tenant]))
    else Some((DEFAULT, s.tenants[DEFAULT]))
  }

  /** Why: no policy at all, a capability the tenant's policy lacks, or the policy of the named tenant. */
  datatype Reason = NotLoaded | Undefined(resolved: Text) | Applied(resolved: Text)

  function Decide(s: State, capability: Text, risk: Text, tenant: Text): (Text, Reason)
    requires s.usable ==> DEFAULT in s.tenants
  {
    match Resolve(s, tenant)
    case None => (BLOCK, NotLoaded)
    case Some((owner, policies)) =>
      if capability !in policies || policies[capability] == map[] then (s.defaultAction, Undefined(owner))
      else if risk in policies[capability] then (policies[capability][risk], Applied(owner))
      else (s.defaultAction, Applied(owner))
  }

  /** `store or _store`: a store is false when it holds no tenant, so an empty candidate is passed over for
      the live store. */
  function Active(candidate: State, live: State): State { if |candidate.tenants| == 0 then live else candidate }

  function PolicyDecision(candidate: State, live: State, capability: Text, risk: Text, tenant: Text): (Text, Reason)
    requires candidate.usable ==> DEFAULT in candidate.tenants
    requires live.usable ==> DEFAULT in live.tenants
  {
    Decide(Active(candidate, live), capability, risk, tenant)
  }

  // ---- The loader against the file ----

  predicate HasCapability(file: File, t: Text, c: Text) {
    && t in Tenants(file) && Tenants(file)[t].Object? && "policies" in Tenants(file)[t].fields
    && Tenants(file)[t].fields["policies"].Object? && c in Tenants(file)[t].fields["policies"].fields
  }

  function Capability(file: File, t: Text, c: Text): Json
    requires HasCapability(file, t, c)
  {
    Tenants(file)[t].fields["policies"].fields[c]
  }

  predicate HasRisk(file: File, t: Text, c: Text, r: Text) {
    HasCapability(file, t, c) && Capability(file, t, c).Object? && r in Capability(file, t, c).fields
  }

  /** The action written for a tenant, capability and risk. */
  function Written(file: File, t: Text, c: Text, r: Text, read: Reading): Text
    requires HasRisk(file, t, c, r)
  {
    read(Capability(file, t, c).fields[r])
  }

  predicate Holds(s: State, t: Text, c: Text, r: Text) {
    t in s.tenants && c in s.tenants[t] && r in s.tenants[t][c]
  }

  lemma EntryKeepsExactlyTheValid(raw: map<Text, Json>, read: Reading, c: Text, r: Text)
    ensures (c in CleanPolicies(raw, read) && r in CleanPolicies(raw, read)[c]) <==>
              (c in raw && raw[c].Object? && r in raw[c].fields && ValidAction(read(raw[c].fields[r])))
    ensures c in CleanPolicies(raw, read) && r in CleanPolicies(raw, read)[c] ==>
              CleanPolicies(raw, read)[c][r] == read(raw[c].fields[r])
  {
  }

  /** Whatever else is wrong with the file, the store holds exactly its valid actions. */
  lemma LoadKeepsExactlyTheValid(file: File, read: Reading, t: Text, c: Text, r: Text)
    ensures Holds(Load(file, read), t, c, r) <==> HasRisk(file, t, c, r) && ValidAction(Written(file, t, c, r, read))
    ensures Holds(Load(file, read), t, c, r) ==> Load(file, read).tenants[t][c][r] == Written(file, t, c, r, read)
  {
    if t in Tenants(file) && RawPolicies(Tenants(file)[t]).Some? {
      EntryKeepsExactlyTheValid(RawPolicies(Tenants(file)[t]).value, read, c, r);
    }
  }

  /** Tenants and capabilities are there only for an action of theirs. */
  lemma NothingIsHollow(file: File, read: Reading, t: Text)
    requires t in Load(file, read).tenants
    ensures exists c, r :: Holds(Load(file, read), t, c, r)
    ensures forall c :: c in Load(file, read).tenants[t] ==> exists r :: Holds(Load(file, read), t, c, r)
  {
    var s := Load(file, read);
    var raw := RawPolicies(Tenants(file)[t]).value;
    assert s.tenants[t] == CleanPolicies(raw, read);
    forall c | c in s.tenants[t] ensures exists r :: Holds(s, t, c, r) {
      var r :| r in raw[c].fields && ValidAction(read(raw[c].fields[r]));
      assert Holds(s, t, c, r);
    }
    assert s.tenants[t] != map[];
    var c :| c in s.tenants[t];
    assert exists r :: Holds(s, t, c, r);
  }

  /** A valid action of a usable file is the decision, whatever its siblings look like. */
  lemma ValidEntryIsHonoured(file: File, read: Reading, t: Text, c: Text, r: Text)
    requires Load(file, read).usable && HasRisk(file, t, c, r) && ValidAction(Written(file, t, c, r, read))
    ensures Decide(Load(file, read), c, r, t) == (Written(file, t, c, r, read), Applied(t))
  {
    LoadKeepsExactlyTheValid(file, read, t, c, r);
  }

  /** The file gives the tenant some valid action. */
  ghost predicate SpeaksFor(file: File, read: Reading, t: Text) {
    exists c, r :: HasRisk(file, t, c, r) && ValidAction(Written(file, t, c, r, read))
  }

  /** The file gives the tenant some valid action for the capability. */
  ghost predicate SpeaksOf(file: File, read: Reading, t: Text, c: Text) {
    exists r :: HasRisk(file, t, c, r) && ValidAction(Written(file, t, c, r, read))
  }

  lemma LoadedIffSpokenFor(file: File, read: Reading, t: Text)
    ensures t in Load(file, read).tenants <==> SpeaksFor(file, read, t)
    ensures t in Load(file, read).tenants ==>
              forall c :: c in Load(file, read).tenants[t] <==> SpeaksOf(file, read, t, c)
  {
    if t in Load(file, read).tenants {
      NothingIsHollow(file, read, t);
      var c, r :| Holds(Load(file, read), t, c, r);
      LoadKeepsExactlyTheValid(file, read, t, c, r);
      forall c ensures c in Load(file, read).tenants[t] <==> SpeaksOf(file, read, t, c) {
        CapabilityIffSpokenOf(file, read, t, c);
      }
    }
    if SpeaksFor(file, read, t) {
      var c, r :| HasRisk(file, t, c, r) && ValidAction(Written(file, t, c, r, read));
      LoadKeepsExactlyTheValid(file, read, t, c, r);
    }
  }

  lemma CapabilityIffSpokenOf(file: File, read: Reading, t: Text, c: Text)
    requires t in Load(file, read).tenants
    ensures c in Load(file, read).tenants[t] <==> SpeaksOf(file, read, t, c)
  {
    if c in Load(file, read).tenants[t] {
      NothingIsHollow(file, read, t);
      var r :| Holds(Load(file, read), t, c, r);
      LoadKeepsExactlyTheValid(file, read, t, c, r);
    }
    if SpeaksOf(file, read, t, c) {
      var r :| HasRisk(file, t, c, r) && ValidAction(Written(file, t, c, r, read));
      LoadKeepsExactlyTheValid(file, read, t, c, r);
    }
  }

  /** Every decision, from the file.  The store is usable exactly when the default tenant has some valid action.  A
      tenant without any is decided by the default tenant's policy, and the reason says whose it was; the action
      is the one written there for the capability and risk, if it is valid, and otherwise the file's default
      action, or BLOCK if that is invalid. */
  lemma DecisionAgainstFile(file: File, read: Reading, c: Text, r: Text, t: Text)
    ensures Load(file, read).usable <==> SpeaksFor(file, read, "default")
    ensures !SpeaksFor(file, read, "default") ==> Decide(Load(file, read), c, r, t) == ("BLOCK", NotLoaded)
    ensures SpeaksFor(file, read, "default") ==>
              var owner := if SpeaksFor(file, read, t) then t else "default";
              var (action, reason) := Decide(Load(file, read), c, r, t);
              && HasTenants(file)
              && reason == (if SpeaksOf(file, read, owner, c) then Applied(owner) else Undefined(owner))
              && action == if HasRisk(file, owner, c, r) && ValidAction(Written(file, owner, c, r, read))
                           then Written(file, owner, c, r, read)
                           else if "default_action" in file.raw.fields
                                   && ValidAction(read(file.raw.fields["default_action"]))
                           then read(file.raw.fields["default_action"]) else "BLOCK"
  {
    LoadedIffSpokenFor(file, read, DEFAULT);
    LoadedIffSpokenFor(file, read, t);
    if SpeaksFor(file, read, DEFAULT) {
      var owner := if SpeaksFor(file, read, t) then t else DEFAULT;
      LoadKeepsExactlyTheValid(file, read, owner, c, r);
      DecisionOf(Load(file, read), c, r, t, owner);
      if SpeaksOf(file, read, owner, c) { NothingIsHollow(file, read, owner); }
    }
  }

  lemma DecisionOf(s: State, c: Text, r: Text, t: Text, owner: Text)
    requires s.usable && DEFAULT in s.tenants && owner == if t in s.tenants then t else DEFAULT
    ensures Holds(s, owner, c, r) ==> Decide(s, c, r, t) == (s.tenants[owner][c][r], Applied(owner))
    ensures !Holds(s, owner, c, r) ==> Decide(s, c, r, t).0 == s.defaultAction
    ensures c !in s.tenants[owner] ==> Decide(s, c, r, t).1 == Undefined(owner)
    ensures c in s.tenants[owner] && s.tenants[owner][c] != map[] ==> Decide(s, c, r, t).1 == Applied(owner)
  {
  }

  // ---- The validator ----

  datatype Problem =
    | FileMissing | Unparseable | NotAnObject | NoTenants | BadDefault | TenantsNotObject | NoDefaultTenant
    | BadTenant(t: Text) | BadPolicies(t: Text) | BadCapability(t: Text, c: Text) | BadAction(t: Text, c: Text, r: Text)

  predicate CapabilityProblem(t: Text, c: Text, value: Json, read: Reading, p: Problem) {
    || (p == BadCapability(t, c) && (!value.Object? || |value.fields| == 0))
    || (p.BadAction? && p.t == t && p.c == c && value.Object? && p.r in value.fields
       && !ValidAction(read(value.fields[p.r])))
  }

  predicate TenantProblem(t: Text, entry: Json, read: Reading, p: Problem) {
    || (p == BadTenant(t) && !entry.Object?)
    || (p == BadPolicies(t) && entry.Object? && RawPolicies(entry).None?)
    || ((p.BadCapability? || p.BadAction?) && RawPolicies(entry).Some? && p.c in RawPolicies(entry).value
        && CapabilityProblem(t, p.c, RawPolicies(entry).value[p.c], read, p))
  }

  /** Everything that can be wrong with a file. */
  predicate IsProblem(file: File, read: Reading, p: Problem) {
    match p
    case FileMissing => file.Missing?
    case Unparseable => file.Unreadable?
    case NotAnObject => file.Parsed? && !file.raw.Object?
    case NoTenants => file.Parsed? && file.raw.Object? && !HasTenants(file)
    case BadDefault => HasTenants(file) && !ValidAction(RawDefault(file, read))
    case TenantsNotObject => HasTenants(file) && !HasTenantTable(file)
    case NoDefaultTenant => HasTenantTable(file) && DEFAULT !in Tenants(file)
    case _ => p.t in Tenants(file) && TenantProblem(p.t, Tenants(file)[p.t], read, p)
  }

  lemma DistinctConcat(a: seq<Problem>, b: seq<Problem>)
    requires Distinct(a) && Distinct(b) && forall p :: p in a ==> p !in b
    ensures Distinct(a + b)
  {
    forall i, j | 0 <= i < j < |a + b| ensures (a + b)[i] != (a + b)[j] {
      if i < |a| <= j { assert a[i] in a && b[j - |a|] in b; }
    }
  }

  /** Reports every problem of the file, each once. */
  method Validate(file: File, read: Reading) returns (errors: seq<Problem>)
    ensures forall p :: p in errors <==> IsProblem(file, read, p)
    ensures Distinct(errors)
  {
    if file.Missing? { return [FileMissing]; }
    if file.Unreadable? { return [Unparseable]; }
    if !file.raw.Object? { return [NotAnObject]; }
    var raw := file.raw.fields;
    if "tenants" !in raw { return [NoTenants]; }
    errors := [];
    if !ValidAction(if "default_action" in raw then read(raw["default_action"]) else BLOCK) { errors := [BadDefault]; }
    if !raw["tenants"].Object? { return errors + [TenantsNotObject]; }
    var tenants := raw["tenants"].fields;
    if DEFAULT !in tenants { errors := errors + [NoDefaultTenant]; }
    var inTenants := ValidateTenants(tenants, read);
    DistinctConcat(errors, inTenants);
    errors := errors + inTenants;
  }

  method ValidateTenants(tenants: map<Text, Json>, read: Reading) returns (errors: seq<Problem>)
    ensures forall p :: p in errors <==> AboutTenant(p) && p.t in tenants && TenantProblem(p.t, tenants[p.t], read, p)
    ensures Distinct(errors)
  {
    errors := [];
    var todo := tenants.Keys;
    while todo != {}
      invariant todo <= tenants.Keys
      invariant forall p :: p in errors <==>
                  AboutTenant(p) && p.t in tenants && p.t !in todo && TenantProblem(p.t, tenants[p.t], read, p)
      invariant Distinct(errors)
      decreases |todo|
    {
      var t :| t in todo;
      var more := ValidateTenant(t, tenants[t], read);
      assert forall p :: p in more ==> AboutTenant(p) && p.t == t;
      DistinctConcat(errors, more);
      errors := errors + more;
      todo := todo - {t};
    }
  }

  predicate AboutTenant(p: Problem) { p.BadTenant? || p.BadPolicies? || p.BadCapability? || p.BadAction? }

  method ValidateTenant(t: Text, entry: Json, read: Reading) returns (errors: seq<Problem>)
    ensures forall p :: p in errors <==> TenantProblem(t, entry, read, p)
    ensures Distinct(errors)
  {
    if !entry.Object? { return [BadTenant(t)]; }
    var policies := RawPolicies(entry);
    if policies.None? { return [BadPolicies(t)]; }
    errors := [];
    var todo := policies.value.Keys;
    while todo != {}
      invariant todo <= policies.value.Keys
      invariant forall p :: p in errors <==>
                  (p.BadCapability? || p.BadAction?) && p.c in policies.value && p.c !in todo
                  && CapabilityProblem(t, p.c, policies.value[p.c], read, p)
      invariant Distinct(errors)
      decreases |todo|
    {
      var c :| c in todo;
      var more := ValidateCapability(t, c, policies.value[c], read);
      assert forall p :: p in more ==> (p.BadCapability? || p.BadAction?) && p.c == c;
      DistinctConcat(errors, more);
      errors := errors + more;
      todo := todo - {c};
    }
  }

  method ValidateCapability(t: Text, c: Text, value: Json, read: Reading) returns (errors: seq<Problem>)
    ensures forall p :: p in errors <==> CapabilityProblem(t, c, value, read, p)
    ensures Distinct(errors)
  {
    if !value.Object? || |value.fields| == 0 { return [BadCapability(t, c)]; }
    errors := [];
    var todo := value.fields.Keys;
    while todo != {}
      invariant todo <= value.fields.Keys
      invariant forall p :: p in errors <==>
                  p.BadAction? && p.t == t && p.c == c && p.r in value.fields && p.r !in todo
                  && !ValidAction(read(value.fields[p.r]))
      invariant Distinct(errors)
      decreases |todo|
    {
      var r :| r in todo;
      if read(value.fields[r]) !in VALID_ACTIONS {
        errors := errors + [BadAction(t, c, r)];
      }
      todo := todo - {r};
    }
  }

  // ---- The validator against the loader ----

  /** Every tenant, capability and action of the file reached the store. */
  ghost predicate DropsNothing(file: File, s: State) {
    && (forall t :: t in Tenants(file) ==> t in s.tenants)
    && (forall t, c :: HasCapability(file, t, c) ==> t in s.tenants && c in s.tenants[t])
    && (forall t, c, r :: HasRisk(file, t, c, r) ==> Holds(s, t, c, r))
  }

  /** The file is loaded as written. */
  ghost predicate LoadsAsWritten(file: File, read: Reading) {
    && HasTenants(file) && Load(file, read).usable && DropsNothing(file, Load(file, read))
    && Load(file, read).defaultAction == RawDefault(file, read)
  }

  ghost predicate Clean(file: File, read: Reading) { forall p :: !IsProblem(file, read, p) }

  lemma CleanLoadsAsWritten(file: File, read: Reading)
    requires Clean(file, read)
    ensures LoadsAsWritten(file, read)
  {
    CleanDropsNothing(file, read);
    CleanTop(file, read);
    DefaultActionKept(file, read);
  }

  lemma DefaultActionKept(file: File, read: Reading)
    requires HasTenants(file)
    ensures Load(file, read).defaultAction == RawDefault(file, read) <==> ValidAction(RawDefault(file, read))
  {
  }

  lemma CleanDropsNothing(file: File, read: Reading)
    requires Clean(file, read)
    ensures DropsNothing(file, Load(file, read))
  {
    forall t | t in Tenants(file) ensures t in Load(file, read).tenants { CleanTenant(file, read, t); }
    forall t, c | HasCapability(file, t, c) ensures t in Load(file, read).tenants && c in Load(file, read).tenants[t] {
      CleanCapability(file, read, t, c);
    }
    forall t, c, r | HasRisk(file, t, c, r) ensures Holds(Load(file, read), t, c, r) { CleanRisk(file, read, t, c, r); }
  }

  lemma CleanRisk(file: File, read: Reading, t: Text, c: Text, r: Text)
    requires Clean(file, read) && HasRisk(file, t, c, r)
    ensures Holds(Load(file, read), t, c, r)
  {
    assert !IsProblem(file, read, BadAction(t, c, r));
    LoadKeepsExactlyTheValid(file, read, t, c, r);
  }

  lemma CleanTop(file: File, read: Reading)
    requires Clean(file, read)
    ensures HasTenantTable(file) && DEFAULT in Tenants(file) && ValidAction(RawDefault(file, read))
  {
    assert !IsProblem(file, read, FileMissing) && !IsProblem(file, read, Unparseable)
      && !IsProblem(file, read, NotAnObject);
    assert !IsProblem(file, read, NoTenants) && !IsProblem(file, read, BadDefault);
    assert !IsProblem(file, read, TenantsNotObject) && !IsProblem(file, read, NoDefaultTenant);
  }

  lemma CleanCapability(file: File, read: Reading, t: Text, c: Text)
    requires Clean(file, read) && HasCapability(file, t, c)
    ensures t in Load(file, read).tenants && c in Load(file, read).tenants[t]
  {
    assert !IsProblem(file, read, BadCapability(t, c));
    var risks := Capability(file, t, c).fields;
    var r :| r in risks.Keys;
    assert HasRisk(file, t, c, r);
    CleanRisk(file, read, t, c, r);
  }

  lemma CleanTenant(file: File, read: Reading, t: Text)
    requires Clean(file, read) && t in Tenants(file)
    ensures t in Load(file, read).tenants
  {
    assert !IsProblem(file, read, BadTenant(t)) && !IsProblem(file, read, BadPolicies(t));
    var raw := RawPolicies(Tenants(file)[t]).value;
    var c :| c in raw.Keys;
    CleanCapability(file, read, t, c);
  }

  lemma WrittenIsClean(file: File, read: Reading, p: Problem)
    requires LoadsAsWritten(file, read) && AboutTenant(p)
    ensures !IsProblem(file, read, p)
  {
    if p.t in Tenants(file) { WrittenTenant(file, read, p); }
    OnlyOfItsTenant(file, read, p);
  }

  lemma OnlyOfItsTenant(file: File, read: Reading, p: Problem)
    requires AboutTenant(p)
    ensures IsProblem(file, read, p) <==> p.t in Tenants(file) && TenantProblem(p.t, Tenants(file)[p.t], read, p)
  {
  }

  lemma WrittenTop(file: File, read: Reading, p: Problem)
    requires HasTenants(file) && Load(file, read).usable && Load(file, read).defaultAction == RawDefault(file, read)
    requires !AboutTenant(p)
    ensures !IsProblem(file, read, p)
  {
    DefaultActionKept(file, read);
  }

  lemma WrittenTenant(file: File, read: Reading, p: Problem)
    requires LoadsAsWritten(file, read) && AboutTenant(p) && p.t in Tenants(file)
    ensures !TenantProblem(p.t, Tenants(file)[p.t], read, p)
  {
    var t := p.t;
    WrittenEntry(file, read, t);
    forall c | HasCapability(file, t, c)
      ensures Capability(file, t, c).Object? && |Capability(file, t, c).fields| != 0
    {
      WrittenCapability(file, read, t, c);
    }
    forall c, r | HasRisk(file, t, c, r) ensures ValidAction(Written(file, t, c, r, read)) {
      WrittenAction(file, read, t, c, r);
    }
    SoundEntry(file, read, p);
  }

  lemma SoundEntry(file: File, read: Reading, p: Problem)
    requires AboutTenant(p) && p.t in Tenants(file) && RawPolicies(Tenants(file)[p.t]).Some?
    requires forall c :: HasCapability(file, p.t, c) ==>
               Capability(file, p.t, c).Object? && |Capability(file, p.t, c).fields| != 0
    requires forall c, r :: HasRisk(file, p.t, c, r) ==> ValidAction(Written(file, p.t, c, r, read))
    ensures !TenantProblem(p.t, Tenants(file)[p.t], read, p)
  {
    if p.BadCapability? || p.BadAction? {
      assert HasCapability(file, p.t, p.c) <==> p.c in RawPolicies(Tenants(file)[p.t]).value;
    }
    if p.BadAction? && HasCapability(file, p.t, p.c) {
      assert HasRisk(file, p.t, p.c, p.r) <==> p.r in Capability(file, p.t, p.c).fields;
    }
  }

  lemma WrittenEntry(file: File, read: Reading, t: Text)
    requires LoadsAsWritten(file, read) && t in Tenants(file)
    ensures RawPolicies(Tenants(file)[t]).Some?
  {
    assert t in Load(file, read).tenants;
  }

  lemma WrittenAction(file: File, read: Reading, t: Text, c: Text, r: Text)
    requires LoadsAsWritten(file, read) && HasRisk(file, t, c, r)
    ensures ValidAction(Written(file, t, c, r, read))
  {
    LoadKeepsExactlyTheValid(file, read, t, c, r);
  }

  lemma WrittenCapability(file: File, read: Reading, t: Text, c: Text)
    requires LoadsAsWritten(file, read) && HasCapability(file, t, c)
    ensures Capability(file, t, c).Object? && |Capability(file, t, c).fields| != 0
  {
    NothingIsHollow(file, read, t);
    var r :| Holds(Load(file, read), t, c, r);
    LoadKeepsExactlyTheValid(file, read, t, c, r);
  }

  /** A file has nothing to report exactly when loading it is usable, keeps its default action and drops no
      tenant, capability or action. */
  lemma CleanIffLoadedAsWritten(file: File, read: Reading)
    ensures Clean(file, read) <==> LoadsAsWritten(file, read)
  {
    if Clean(file, read) { CleanLoadsAsWritten(file, read); }
    if LoadsAsWritten(file, read) {
      forall p ensures !IsProblem(file, read, p) {
        if AboutTenant(p) { WrittenIsClean(file, read, p); } else { WrittenTop(file, read, p); }
      }
    }
  }

  // ---- Every run of loads ----

  ghost predicate WellFormed(s: State) {
    && (s.usable ==> DEFAULT in s.tenants) && ValidAction(s.defaultAction)
    && forall t, c, r :: Holds(s, t, c, r) ==> ValidAction(s.tenants[t][c][r])
  }

  const FRESH := State(map[], BLOCK, false)

  /** A store after forced loads of the files in turn. */
  function AfterLoads(files: seq<File>, read: Reading): State {
    if files == [] then FRESH
    else LoadOver(AfterLoads(files[..|files| - 1], read).defaultAction, files[|files| - 1], read)
  }

  /** In every run the store stays well formed and every decision is a valid action, the one of a fresh load of
      the last file: no decision depends on the default action that a rejected file leaves behind. */
  lemma {:induction false} EveryLoadIsFresh(files: seq<File>, read: Reading, c: Text, r: Text, t: Text)
    ensures WellFormed(AfterLoads(files, read))
    ensures ValidAction(Decide(AfterLoads(files, read), c, r, t).0)
    ensures files != [] ==> Decide(AfterLoads(files, read), c, r, t) == Decide(Load(files[|files| - 1], read), c, r, t)
  {
    if files != [] {
      EveryLoadIsFresh(files[..|files| - 1], read, c, r, t);
      var last, s := files[|files| - 1], AfterLoads(files, read);
      forall t, c, r | Holds(s, t, c, r) ensures ValidAction(s.tenants[t][c][r]) {
        LoadKeepsExactlyTheValid(last, read, t, c, r);
      }
    }
    WellFormedDecides(AfterLoads(files, read), c, r, t);
  }

  lemma WellFormedDecides(s: State, c: Text, r: Text, t: Text)
    requires WellFormed(s)
    ensures ValidAction(Decide(s, c, r, t).0)
  {
    if s.usable {
      var owner := if t in s.tenants then t else DEFAULT;
      assert c in s.tenants[owner] && r in s.tenants[owner][c] ==> Holds(s, owner, c, r);
    }
  }

  /** The default action itself, which `get_default_action` shows to callers, does: it is that of the last file
      that had a `tenants` key, whatever was loaded since, and BLOCK when there was none. */
  lemma {:induction false} DefaultIsOfTheLastTable(files: seq<File>, read: Reading, i: nat)
    requires i <= |files| && forall j :: i <= j < |files| ==> !HasTenants(files[j])
    requires i > 0 ==> HasTenants(files[i - 1])
    ensures AfterLoads(files, read).defaultAction == if i == 0 then BLOCK else Load(files[i - 1], read).defaultAction
  {
    if files != [] && i < |files| { DefaultIsOfTheLastTable(files[..|files| - 1], read, i); }
  }

  /** So the default action shown is that of a fresh load of the last file exactly when that file has a
      `tenants` key or the one shown before was BLOCK. */
  lemma StaleDefaultShowsIff(files: seq<File>, last: File, read: Reading)
    ensures AfterLoads(files + [last], read).defaultAction == Load(last, read).defaultAction
            <==> HasTenants(last) || AfterLoads(files, read).defaultAction == BLOCK
  {
    assert (files + [last])[..|files|] == files;
  }

  /** Witness: a file whose default is ALLOW, then a missing file.  Every decision is BLOCK, and the default
      action shown is still ALLOW. */
  lemma StaleDefaultShows(table: Json, read: Reading, c: Text, r: Text, t: Text)
    requires read(Scalar("allow")) == VALID_ACTIONS[2]
    ensures var files := [Parsed(Object(map["tenants" := table, "default_action" := Scalar("allow")])), Missing];
            && AfterLoads(files, read).defaultAction == "ALLOW"
            && Decide(AfterLoads(files, read), c, r, t).0 == BLOCK != "ALLOW"
  {
    var first := Parsed(Object(map["tenants" := table, "default_action" := Scalar("allow")]));
    assert "ALLOW" in VALID_ACTIONS by { assert VALID_ACTIONS[2] == "ALLOW"; }
    assert HasTenants(first) && Load(first, read).defaultAction == "ALLOW";
    DefaultIsOfTheLastTable([first, Missing], read, 1);
    assert "ALLOW"[0] != BLOCK[0];
  }

  // ---- Non-interference ----

  /** Two files that agree on everything but one tenant's entry, present or not. */
  ghost predicate DifferOnlyAt(f: File, g: File, x: Text, read: Reading) {
    && HasTenantTable(f) && HasTenantTable(g) && RawDefault(f, read) == RawDefault(g, read)
    && forall t :: t != x ==>
         (t in Tenants(f) <==> t in Tenants(g)) && (t in Tenants(f) ==> Tenants(f)[t] == Tenants(g)[t])
  }

  /** Changing one tenant's entry changes no other tenant's decision. */
  lemma OthersUnaffected(f: File, g: File, x: Text, read: Reading, c: Text, r: Text, t: Text)
    requires DifferOnlyAt(f, g, x, read) && x != DEFAULT && t != x
    ensures Decide(Load(f, read), c, r, t) == Decide(Load(g, read), c, r, t)
    ensures Load(f, read).usable == Load(g, read).usable
  {
    SameElsewhere(f, g, x, read, t);
    SameElsewhere(f, g, x, read, DEFAULT);
    SameDecision(Load(f, read), Load(g, read), c, r, t);
  }

  lemma SameDecision(a: State, b: State, c: Text, r: Text, t: Text)
    requires a.usable == b.usable && a.defaultAction == b.defaultAction && Proper(a) && Proper(b)
    requires forall u :: u == t || u == DEFAULT ==>
               (u in a.tenants <==> u in b.tenants) && (u in a.tenants ==> a.tenants[u] == b.tenants[u])
    ensures Decide(a, c, r, t) == Decide(b, c, r, t)
  {
  }

  lemma SameElsewhere(f: File, g: File, x: Text, read: Reading, t: Text)
    requires DifferOnlyAt(f, g, x, read) && t != x
    ensures t in LoadedTenants(f, read) <==> t in LoadedTenants(g, read)
    ensures t in LoadedTenants(f, read) ==> LoadedTenants(f, read)[t] == LoadedTenants(g, read)[t]
  {
  }

  /** Nothing can be said of a live store but this. */
  predicate Proper(s: State) { s.usable ==> DEFAULT in s.tenants }

  const OPEN := State(map[DEFAULT := map["c" := map["r" := "ALLOW"]]], BLOCK, true)

  /** Passed as a candidate, an unusable store blocks whatever the live store says exactly when it holds some
      tenant: an empty one hands the decision to the live store. */
  lemma UnusableBlocksIff(candidate: State)
    requires !candidate.usable
    ensures (forall live, c, r, t :: Proper(live) ==> PolicyDecision(candidate, live, c, r, t).0 == BLOCK)
              <==> candidate.tenants != map[]
    ensures candidate.tenants == map[] ==> PolicyDecision(candidate, OPEN, "c", "r", DEFAULT).0 == "ALLOW"
  {
    if candidate.tenants == map[] {
      assert PolicyDecision(candidate, OPEN, "c", "r", DEFAULT).0 == "ALLOW";
      assert Proper(OPEN) && "ALLOW"[0] != BLOCK[0];
    }
  }

  /** A candidate with tenants decides alone, whatever the live store holds; one without is passed over. */
  lemma CandidateDecides(candidate: State, live: State, c: Text, r: Text, t: Text)
    requires Proper(candidate) && Proper(live)
    ensures PolicyDecision(candidate, live, c, r, t)
            == Decide(if candidate.tenants == map[] then live else candidate, c, r, t)
  {
  }

  /** As candidates, two files that differ at one tenant decide alike for everyone else, against every live
      store, exactly when both or neither come out empty. */
  lemma CandidatesAgreeIff(f: File, g: File, x: Text, read: Reading)
    requires DifferOnlyAt(f, g, x, read) && x != DEFAULT
    ensures (forall live, c, r, t :: Proper(live) && t != x ==>
               PolicyDecision(Load(f, read), live, c, r, t) == PolicyDecision(Load(g, read), live, c, r, t))
            <==> (Load(f, read).tenants == map[] <==> Load(g, read).tenants == map[])
    ensures Load(f, read).usable ==> Load(f, read).tenants != map[] && Load(g, read).tenants != map[]
  {
    var a, b := Load(f, read), Load(g, read);
    forall live, c, r, t | Proper(live) && t != x && (a.tenants == map[] <==> b.tenants == map[])
      ensures PolicyDecision(a, live, c, r, t) == PolicyDecision(b, live, c, r, t)
    {
      OthersUnaffected(f, g, x, read, c, r, t);
    }
    OthersUnaffected(f, g, x, read, "c", "r", DEFAULT);
    if a.tenants == map[] && b.tenants != map[] { OneIsEmpty(a, b); }
    if b.tenants == map[] && a.tenants != map[] { OneIsEmpty(b, a); }
  }

  lemma OneIsEmpty(none: State, some: State)
    requires none.tenants == map[] && some.tenants != map[] && !some.usable && Proper(none)
    ensures Proper(OPEN)
    ensures PolicyDecision(none, OPEN, "c", "r", DEFAULT) != PolicyDecision(some, OPEN, "c", "r", DEFAULT)
  {
    assert PolicyDecision(none, OPEN, "c", "r", DEFAULT) == ("ALLOW", Applied(DEFAULT));
    assert PolicyDecision(some, OPEN, "c", "r", DEFAULT).1 == NotLoaded;
  }
}
