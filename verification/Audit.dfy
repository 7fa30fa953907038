/** The token-exchange audit: three checks over access logs and Keycloak event lines.

    The methods follow the script's loops; the predicates say what each loop decides. */
module Audit {
  import opened Text
  import opened EventLine

  /** A service's access-log entry. Absent claims are None, "" or "-". */
  datatype Access = Access(service: string, ts: int, jti: Option<string>, sub: Option<string>, status: int)

  datatype UserIds = UserIds(userId: Option<string>, user_id: Option<string>)

  /** A Keycloak log line; `parsed` holds its user fields when the line happens to be JSON. */
  datatype KcLine = KcLine(ts: int, text: string, parsed: Option<UserIds>)

  /** What one issue event says about the (jti, audience) pair that keys it. */
  datatype Record = Record(sub: Option<string>, ts: int)

  type Pair = (string, string)

  const USER_FACING: set<string> := {"frontend", "order-service"}
  const DOWNSTREAM: set<string> := {"inventory-service", "warehouse-service", "employee-service"}
  const EXCHANGED: set<string> := {"order-service", "inventory-service", "warehouse-service", "employee-service"}

  /** A claim that is really there. */
  predicate Real(claim: Option<string>) {
    claim.Some? && claim.value != "" && claim.value != "-"
  }

  predicate Truthy(v: Option<string>) {
    v.Some? && v.value != ""
  }

  function AccessQuery(logs: seq<Access>, services: set<string>, lo: int, hi: int): seq<Access> {
    Filter(logs, (e: Access) => e.service in services && lo <= e.ts < hi)
  }

  function Authenticated(logs: seq<Access>): seq<Access> {
    Filter(logs, (e: Access) => e.status != 401)
  }

  function KcQuery(kc: seq<KcLine>, needle: string, lo: int, hi: int): seq<KcLine> {
    Filter(kc, (l: KcLine) => Contains(l.text, needle) && lo <= l.ts < hi)
  }

  /** Two logs that hold the same entries, in any order and any number of times. */
  ghost predicate SameEntries<T(!new)>(a: seq<T>, b: seq<T>) {
    forall x :: x in a <==> x in b
  }

  // ---- CHECK 1: one jti at both layers ----

  function Jtis(logs: seq<Access>): set<string> {
    set e | e in logs && Real(e.jti) :: e.jti.value
  }

  predicate Check1(logs: seq<Access>, start: int, end: int) {
    Jtis(AccessQuery(logs, USER_FACING, start, end)) * Jtis(AccessQuery(logs, DOWNSTREAM, start, end)) == {}
  }

  ghost predicate ReusedAcrossLayers(logs: seq<Access>, start: int, end: int, a: Access, b: Access) {
    && a in logs && b in logs && Real(a.jti) && a.jti == b.jti
    && a.service in USER_FACING && b.service in DOWNSTREAM
    && start <= a.ts < end && start <= b.ts < end
  }

  /** CHECK 1 fires exactly when one real jti was logged at both layers inside the window. */
  lemma Check1Exact(logs: seq<Access>, start: int, end: int)
    ensures !Check1(logs, start, end) <==> exists a, b :: ReusedAcrossLayers(logs, start, end, a, b)
  {
    var up, down := AccessQuery(logs, USER_FACING, start, end), AccessQuery(logs, DOWNSTREAM, start, end);
    if !Check1(logs, start, end) {
      var jti :| jti in Jtis(up) * Jtis(down);
      var a :| a in up && Real(a.jti) && a.jti.value == jti;
      var b :| b in down && Real(b.jti) && b.jti.value == jti;
      assert ReusedAcrossLayers(logs, start, end, a, b);
    }
    forall a, b | ReusedAcrossLayers(logs, start, end, a, b) ensures !Check1(logs, start, end) {
      assert a in up && b in down;
      assert a.jti.value in Jtis(up) * Jtis(down);
    }
  }

  /** The check passes exactly when no real jti was logged at both layers inside the window. */
  method RunCheck1(logs: seq<Access>, start: int, end: int) returns (ok: bool)
    ensures ok <==> !exists a, b :: a in logs && b in logs && a.jti == b.jti && a.jti !in {None, Some(""), Some("-")}
                      && a.service in {"frontend", "order-service"}
                      && b.service in {"inventory-service", "warehouse-service", "employee-service"}
                      && start <= a.ts < end && start <= b.ts < end
    ensures ok <==> Check1(logs, start, end)
  {
    Check1Exact(logs, start, end);
    var userJtis := Jtis(AccessQuery(logs, USER_FACING, start, end));
    var dsJtis := Jtis(AccessQuery(logs, DOWNSTREAM, start, end));
    ok := userJtis * dsJtis == {};
    forall a, b ensures ReusedAcrossLayers(logs, start, end, a, b) <==>
      a in logs && b in logs && a.jti == b.jti && a.jti !in {None, Some(""), Some("-")}
      && a.service in {"frontend", "order-service"} && b.service in {"inventory-service", "warehouse-service", "employee-service"}
      && start <= a.ts < end && start <= b.ts < end
    {
    }
  }

  // ---- CHECK 2: every token used was issued by an exchange ----

  /** The issue fact that one Keycloak line states, if it states one. */
  function IssueOf(l: KcLine): (r: Option<(Pair, Record)>)
    ensures r.Some? ==> l.parsed.None? && r.value.1.ts == l.ts
  {
    if l.parsed.Some? then None
    else
      var tokenId, audience := KvExtract(l.text, "token_id"), KvExtract(l.text, "audience");
      if !Truthy(tokenId) || !Truthy(audience) then None
      else Some(((tokenId.value, audience.value), Record(KvExtract(l.text, "userId"), l.ts)))
  }

  /** The dictionary that the parsing loop fills: a later line overwrites an earlier one. */
  function RecordsOf(kc: seq<KcLine>): map<Pair, Record> {
    if kc == [] then map[]
    else
      var m, issue := RecordsOf(kc[..|kc| - 1]), IssueOf(kc[|kc| - 1]);
      if issue.Some? then m[issue.value.0 := issue.value.1] else m
  }

  method ParseTokenExchangeEvents(kcLogs: seq<KcLine>) returns (records: map<Pair, Record>)
    ensures records == RecordsOf(kcLogs)
    ensures forall i: nat :: LastOfItsPair(kcLogs, i) ==>
      IssueOf(kcLogs[i]).value.0 in records && records[IssueOf(kcLogs[i]).value.0] == IssueOf(kcLogs[i]).value.1
  {
    LastRecordKept(kcLogs);
    records := map[];
    for i := 0 to |kcLogs|
      invariant records == RecordsOf(kcLogs[..i])
    {
      assert kcLogs[..i + 1][..i] == kcLogs[..i];
      var e := kcLogs[i];
      if e.parsed.None? {
        var tokenId := KvExtract(e.text, "token_id");
        var audience := KvExtract(e.text, "audience");
        if Truthy(tokenId) && Truthy(audience) {
          var userId := KvExtract(e.text, "userId");
          records := records[(tokenId.value, audience.value) := Record(userId, e.ts)];
        }
      }
    }
    assert kcLogs[..|kcLogs|] == kcLogs;
  }

  predicate Uses(e: Access, key: Pair) {
    Real(e.jti) && key == (e.jti.value, e.service)
  }

  /** The dictionary of used pairs: the first entry of each pair stays. */
  function FirstSeen(ds: seq<Access>): map<Pair, Access> {
    if ds == [] then map[]
    else
      var m, e := FirstSeen(ds[..|ds| - 1]), ds[|ds| - 1];
      if Real(e.jti) && (e.jti.value, e.service) !in m then m[(e.jti.value, e.service) := e] else m
  }

  predicate Agrees(r: Record, e: Access) {
    Truthy(r.sub) ==> r.sub == e.sub
  }

  predicate Vouched(records: map<Pair, Record>, key: Pair, e: Access) {
    key in records && Agrees(records[key], e)
  }

  /** What the loops decide: each pair's first use against its last record. */
  predicate LoopVerdict(ds: seq<Access>, kc: seq<KcLine>) {
    forall key :: key in FirstSeen(ds) ==> Vouched(RecordsOf(kc), key, FirstSeen(ds)[key])
  }

  predicate Check2(logs: seq<Access>, kc: seq<KcLine>, start: int, end: int, lookback: int) {
    LoopVerdict(Authenticated(AccessQuery(logs, EXCHANGED, start, end)),
                KcQuery(kc, "TOKEN_EXCHANGE", start - lookback, end))
  }

  /** An entry that the check is about: of a backend, inside the window, not a 401, with a real jti. */
  predicate UsedInWindow(e: Access, start: int, end: int) {
    && e.service in {"order-service", "inventory-service", "warehouse-service", "employee-service"}
    && start <= e.ts < end && e.status != 401
    && e.jti !in {None, Some(""), Some("-")}
  }

  /** Entry `i` is the first such use of its jti at its service. */
  predicate FirstUseAt(logs: seq<Access>, start: int, end: int, i: nat) {
    && i < |logs| && UsedInWindow(logs[i], start, end)
    && forall j :: 0 <= j < i && UsedInWindow(logs[j], start, end) ==> logs[j].jti != logs[i].jti || logs[j].service != logs[i].service
  }

  /** The line states that a token was issued, and lies between the times. */
  predicate IssueLine(l: KcLine, lo: int, hi: int, jti: string, service: string) {
    && Contains(l.text, "TOKEN_EXCHANGE") && lo <= l.ts < hi
    && IssueOf(l).Some? && IssueOf(l).value.0 == (jti, service)
  }

  /** Line `j` is the last that states an issue of `jti` for `service`. */
  predicate LastIssueAt(kc: seq<KcLine>, lo: int, hi: int, jti: string, service: string, j: nat) {
    && j < |kc| && IssueLine(kc[j], lo, hi, jti, service)
    && forall k :: j < k < |kc| ==> !IssueLine(kc[k], lo, hi, jti, service)
  }

  function Used(logs: seq<Access>, start: int, end: int): seq<Access> {
    Authenticated(AccessQuery(logs, EXCHANGED, start, end))
  }

  lemma UsedNext(logs: seq<Access>, e: Access, start: int, end: int)
    ensures Used(logs + [e], start, end) ==
            Used(logs, start, end) + if e.service in EXCHANGED && start <= e.ts < end && e.status != 401 then [e] else []
  {
    var inWindow := (x: Access) => x.service in EXCHANGED && start <= x.ts < end;
    var allowed := (x: Access) => x.status != 401;
    FilterAppends(logs, [e], inWindow);
    FilterOne(e, inWindow);
    assert AccessQuery(logs + [e], EXCHANGED, start, end) == AccessQuery(logs, EXCHANGED, start, end) + Filter([e], inWindow);
    FilterAppends(AccessQuery(logs, EXCHANGED, start, end), Filter([e], inWindow), allowed);
    FilterOne(e, allowed);
  }

  /** The kept entries, read off the log itself. */
  ghost predicate KeptAreFirst(logs: seq<Access>, start: int, end: int, seen: map<Pair, Access>) {
    && (forall i: nat :: FirstUseAt(logs, start, end, i) ==>
          (logs[i].jti.value, logs[i].service) in seen && seen[(logs[i].jti.value, logs[i].service)] == logs[i])
    && (forall key :: key in seen ==> HasFirstUse(logs, start, end, key))
  }

  ghost predicate HasFirstUse(logs: seq<Access>, start: int, end: int, key: Pair) {
    exists i: nat :: FirstUseAt(logs, start, end, i) && (logs[i].jti.value, logs[i].service) == key
  }

  lemma SeenNextInLog(front: seq<Access>, e: Access, start: int, end: int)
    ensures var seen := FirstSeen(Used(front, start, end));
            FirstSeen(Used(front + [e], start, end)) ==
              if UsedInWindow(e, start, end) && (e.jti.value, e.service) !in seen then seen[(e.jti.value, e.service) := e] else seen
  {
    UsedNext(front, e, start, end);
    var used := Used(front, start, end);
    if e.service in EXCHANGED && start <= e.ts < end && e.status != 401 {
      assert Used(front + [e], start, end) == used + [e];
      assert UsedInWindow(e, start, end) <==> Real(e.jti);
      SeenOne(used, e);
    } else {
      assert Used(front + [e], start, end) == used + [] == used;
    }
  }

  lemma {:induction false} FirstSeenInLog(logs: seq<Access>, start: int, end: int)
    ensures KeptAreFirst(logs, start, end, FirstSeen(Used(logs, start, end)))
  {
    if logs != [] {
      var front, e := logs[..|logs| - 1], logs[|logs| - 1];
      assert logs == front + [e];
      var seen := FirstSeen(Used(front, start, end));
      FirstSeenInLog(front, start, end);
      SeenNextInLog(front, e, start, end);
      if UsedInWindow(e, start, end) {
        NextUse(front, e, start, end, seen);
      } else {
        SkipUse(front, e, start, end, seen);
      }
    } else {
      assert Used(logs, start, end) == [];
    }
  }

  lemma SkipUse(front: seq<Access>, e: Access, start: int, end: int, seen: map<Pair, Access>)
    requires !UsedInWindow(e, start, end) && KeptAreFirst(front, start, end, seen)
    ensures KeptAreFirst(front + [e], start, end, seen)
  {
    SameFirstUses(front, e, start, end);
  }

  /** An entry at the end changes no earlier first use. */
  lemma SameFirstUses(front: seq<Access>, e: Access, start: int, end: int)
    ensures forall i: nat :: i < |front| ==> (FirstUseAt(front + [e], start, end, i) <==> FirstUseAt(front, start, end, i))
    ensures forall key :: HasFirstUse(front, start, end, key) ==> HasFirstUse(front + [e], start, end, key)
  {
    var logs := front + [e];
    assert forall i: nat :: i < |front| ==> logs[i] == front[i];
    forall key | HasFirstUse(front, start, end, key) ensures HasFirstUse(logs, start, end, key) {
      var i: nat :| FirstUseAt(front, start, end, i) && (front[i].jti.value, front[i].service) == key;
      assert FirstUseAt(logs, start, end, i);
    }
  }

  lemma NextUse(front: seq<Access>, e: Access, start: int, end: int, seen: map<Pair, Access>)
    requires UsedInWindow(e, start, end) && KeptAreFirst(front, start, end, seen) && seen == FirstSeen(Used(front, start, end))
    ensures var key := (e.jti.value, e.service);
            KeptAreFirst(front + [e], start, end, if key in seen then seen else seen[key := e])
  {
    var logs, key, n := front + [e], (e.jti.value, e.service), |front|;
    SameFirstUses(front, e, start, end);
    LastIsFirst(front, e, start, end);
    if key !in seen {
      assert HasFirstUse(logs, start, end, key) by { assert FirstUseAt(logs, start, end, n); }
    }
  }

  lemma LastIsFirst(front: seq<Access>, e: Access, start: int, end: int)
    requires UsedInWindow(e, start, end) && KeptAreFirst(front, start, end, FirstSeen(Used(front, start, end)))
    ensures FirstUseAt(front + [e], start, end, |front|) <==> (e.jti.value, e.service) !in FirstSeen(Used(front, start, end))
  {
    var key, logs := (e.jti.value, e.service), front + [e];
    if key in FirstSeen(Used(front, start, end)) {
      var i: nat :| FirstUseAt(front, start, end, i) && (front[i].jti.value, front[i].service) == key;
      assert logs[i] == front[i];
    } else {
      forall j | 0 <= j < |front| && UsedInWindow(logs[j], start, end) ensures logs[j].jti != e.jti || logs[j].service != e.service {
        UsedIsSeen(front, start, end, j);
      }
    }
  }

  lemma SeenOne(ds: seq<Access>, e: Access)
    ensures FirstSeen(ds + [e]) ==
            if Real(e.jti) && (e.jti.value, e.service) !in FirstSeen(ds) then FirstSeen(ds)[(e.jti.value, e.service) := e] else FirstSeen(ds)
    ensures FirstSeen(ds + []) == FirstSeen(ds)
  {
    assert (ds + [e])[..|ds|] == ds;
    assert ds + [] == ds;
  }

  lemma UsedIsSeen(logs: seq<Access>, start: int, end: int, j: nat)
    requires j < |logs| && UsedInWindow(logs[j], start, end)
    ensures (logs[j].jti.value, logs[j].service) in FirstSeen(Used(logs, start, end))
  {
    FirstSeenLaw(Used(logs, start, end));
    assert logs[j] in Used(logs, start, end);
  }

  /** The kept records, read off the event log itself. */
  lemma {:induction false} RecordsInLog(kc: seq<KcLine>, lo: int, hi: int)
    ensures forall j: nat, jti, service :: LastIssueAt(kc, lo, hi, jti, service, j) ==>
              (jti, service) in RecordsOf(KcQuery(kc, "TOKEN_EXCHANGE", lo, hi))
              && RecordsOf(KcQuery(kc, "TOKEN_EXCHANGE", lo, hi))[(jti, service)] == IssueOf(kc[j]).value.1
    ensures forall jti, service :: (jti, service) in RecordsOf(KcQuery(kc, "TOKEN_EXCHANGE", lo, hi)) ==>
              exists j: nat :: LastIssueAt(kc, lo, hi, jti, service, j)
  {
    if kc != [] {
      var n := |kc| - 1;
      var front, l := kc[..n], kc[n];
      RecordsInLog(front, lo, hi);
      QueryNext(front, l, lo, hi);
      assert kc == front + [l];
      assert forall j: nat, jti, service :: j < n ==>
        (LastIssueAt(kc, lo, hi, jti, service, j) <==> LastIssueAt(front, lo, hi, jti, service, j) && !IssueLine(l, lo, hi, jti, service));
      forall jti, service | (jti, service) in RecordsOf(KcQuery(kc, "TOKEN_EXCHANGE", lo, hi))
        ensures exists j: nat :: LastIssueAt(kc, lo, hi, jti, service, j)
      {
        if IssueLine(l, lo, hi, jti, service) {
          assert LastIssueAt(kc, lo, hi, jti, service, n);
        } else {
          var j: nat :| LastIssueAt(front, lo, hi, jti, service, j);
          assert LastIssueAt(kc, lo, hi, jti, service, j);
        }
      }
    }
  }

  lemma QueryNext(kc: seq<KcLine>, l: KcLine, lo: int, hi: int)
    ensures var before, after := RecordsOf(KcQuery(kc, "TOKEN_EXCHANGE", lo, hi)), RecordsOf(KcQuery(kc + [l], "TOKEN_EXCHANGE", lo, hi));
            after == if Contains(l.text, "TOKEN_EXCHANGE") && lo <= l.ts < hi && IssueOf(l).Some?
                     then before[IssueOf(l).value.0 := IssueOf(l).value.1] else before
  {
    var p := (x: KcLine) => Contains(x.text, "TOKEN_EXCHANGE") && lo <= x.ts < hi;
    FilterAppends(kc, [l], p);
    FilterOne(l, p);
    var q := KcQuery(kc, "TOKEN_EXCHANGE", lo, hi);
    assert KcQuery(kc + [l], "TOKEN_EXCHANGE", lo, hi) == q + Filter([l], p);
    assert (q + [l])[..|q|] == q;
    assert q + [] == q;
  }

  /** The verdict, read off the two logs. */
  ghost predicate UsesAreRecorded(logs: seq<Access>, kc: seq<KcLine>, start: int, end: int, lookback: int) {
    forall i: nat :: FirstUseAt(logs, start, end, i) ==>
      exists j: nat :: LastIssueAt(kc, start - lookback, end, logs[i].jti.value, logs[i].service, j)
                       && IssueOf(kc[j]).value.1.sub in {None, Some(""), logs[i].sub}
  }

  lemma FirstUseVouched(logs: seq<Access>, kc: seq<KcLine>, start: int, end: int, lookback: int, i: nat)
    requires FirstUseAt(logs, start, end, i)
    ensures Vouched(RecordsOf(KcQuery(kc, "TOKEN_EXCHANGE", start - lookback, end)), (logs[i].jti.value, logs[i].service), logs[i])
            <==> exists j: nat :: LastIssueAt(kc, start - lookback, end, logs[i].jti.value, logs[i].service, j)
                                  && IssueOf(kc[j]).value.1.sub in {None, Some(""), logs[i].sub}
  {
    RecordsInLog(kc, start - lookback, end);
    var records := RecordsOf(KcQuery(kc, "TOKEN_EXCHANGE", start - lookback, end));
    var key := (logs[i].jti.value, logs[i].service);
    if key in records {
      var j: nat :| LastIssueAt(kc, start - lookback, end, key.0, key.1, j);
      assert records[key] == IssueOf(kc[j]).value.1;
    }
  }

  lemma LoopReadsLogs(logs: seq<Access>, kc: seq<KcLine>, start: int, end: int, lookback: int)
    ensures Check2(logs, kc, start, end, lookback) <==> UsesAreRecorded(logs, kc, start, end, lookback)
  {
    var seen, records := FirstSeen(Used(logs, start, end)), RecordsOf(KcQuery(kc, "TOKEN_EXCHANGE", start - lookback, end));
    FirstSeenInLog(logs, start, end);
    if Check2(logs, kc, start, end, lookback) {
      forall i: nat | FirstUseAt(logs, start, end, i)
        ensures exists j: nat :: LastIssueAt(kc, start - lookback, end, logs[i].jti.value, logs[i].service, j)
                                 && IssueOf(kc[j]).value.1.sub in {None, Some(""), logs[i].sub}
      {
        FirstUseVouched(logs, kc, start, end, lookback, i);
        assert Vouched(records, (logs[i].jti.value, logs[i].service), logs[i]);
      }
    }
    if UsesAreRecorded(logs, kc, start, end, lookback) {
      forall key | key in seen ensures Vouched(records, key, seen[key]) {
        var i: nat :| FirstUseAt(logs, start, end, i) && (logs[i].jti.value, logs[i].service) == key;
        FirstUseVouched(logs, kc, start, end, lookback, i);
      }
    }
  }

  /** The check passes exactly when the first use of each jti at each service has a record in the widened window, and the
      last such record names no other user. */
  method RunCheck2(logs: seq<Access>, kc: seq<KcLine>, start: int, end: int, lookback: int) returns (ok: bool)
    ensures ok <==> UsesAreRecorded(logs, kc, start, end, lookback)
    ensures ok <==> Check2(logs, kc, start, end, lookback)
  {
    LoopReadsLogs(logs, kc, start, end, lookback);
    var dsLogs := Authenticated(AccessQuery(logs, EXCHANGED, start, end));
    var kcLogs := KcQuery(kc, "TOKEN_EXCHANGE", start - lookback, end);
    var exchanged := ParseTokenExchangeEvents(kcLogs);

    var seen: map<Pair, Access> := map[];
    for i := 0 to |dsLogs|
      invariant seen == FirstSeen(dsLogs[..i])
    {
      assert dsLogs[..i + 1][..i] == dsLogs[..i];
      var e := dsLogs[i];
      if Real(e.jti) {
        var key := (e.jti.value, e.service);
        if key !in seen {
          seen := seen[key := e];
        }
      }
    }
    assert dsLogs[..|dsLogs|] == dsLogs;

    var noRecord: set<Pair> := {};
    var subMismatch: set<Pair> := {};
    var todo := seen.Keys;
    while todo != {}
      invariant todo <= seen.Keys
      invariant noRecord + subMismatch <= seen.Keys
      invariant forall key :: key in seen && key !in todo ==>
        (Vouched(exchanged, key, seen[key]) <==> key !in noRecord && key !in subMismatch)
      invariant forall key :: key in noRecord + subMismatch ==> key !in todo
      decreases todo
    {
      var key :| key in todo;
      todo := todo - {key};
      if key !in exchanged {
        noRecord := noRecord + {key};
      } else if Truthy(exchanged[key].sub) && exchanged[key].sub != seen[key].sub {
        subMismatch := subMismatch + {key};
      }
    }
    ok := noRecord == {} && subMismatch == {};
    if !ok {
      var key :| key in noRecord + subMismatch;
      assert !Vouched(exchanged, key, seen[key]);
    }
  }

  lemma {:induction false} FirstSeenLaw(ds: seq<Access>)
    ensures forall key :: key in FirstSeen(ds) ==> FirstSeen(ds)[key] in ds && Uses(FirstSeen(ds)[key], key)
    ensures forall e :: e in ds && Real(e.jti) ==> (e.jti.value, e.service) in FirstSeen(ds)
  {
    if ds != [] {
      FirstSeenLaw(ds[..|ds| - 1]);
      assert ds == ds[..|ds| - 1] + [ds[|ds| - 1]];
    }
  }

  /** Line `l` states record `r` for `key`. */
  predicate States(l: KcLine, key: Pair, r: Record) {
    IssueOf(l) == Some((key, r))
  }

  lemma {:induction false} RecordsLaw(kc: seq<KcLine>)
    ensures forall key :: key in RecordsOf(kc) ==> exists l :: l in kc && States(l, key, RecordsOf(kc)[key])
    ensures forall l :: l in kc && IssueOf(l).Some? ==> IssueOf(l).value.0 in RecordsOf(kc)
  {
    if kc != [] {
      var front, last := kc[..|kc| - 1], kc[|kc| - 1];
      RecordsLaw(front);
      assert kc == front + [last];
      forall key | key in RecordsOf(kc) ensures exists l :: l in kc && States(l, key, RecordsOf(kc)[key]) {
        if IssueOf(last).Some? && IssueOf(last).value.0 == key {
          assert last in kc && States(last, key, RecordsOf(kc)[key]);
        } else {
          var l :| l in front && States(l, key, RecordsOf(front)[key]);
          assert l in kc;
        }
      }
    }
  }

  predicate StatesPair(l: KcLine, key: Pair) {
    IssueOf(l).Some? && IssueOf(l).value.0 == key
  }

  /** No later line states a record for the same pair. */
  predicate LastOfItsPair(kc: seq<KcLine>, i: nat) {
    && i < |kc| && IssueOf(kc[i]).Some?
    && forall j :: i < j < |kc| ==> !StatesPair(kc[j], IssueOf(kc[i]).value.0)
  }

  /** The record that stays for a pair is the last one stated. */
  lemma LastRecordKept(kc: seq<KcLine>)
    ensures forall i: nat :: LastOfItsPair(kc, i) ==>
              IssueOf(kc[i]).value.0 in RecordsOf(kc) && RecordsOf(kc)[IssueOf(kc[i]).value.0] == IssueOf(kc[i]).value.1
  {
    forall i: nat | LastOfItsPair(kc, i)
      ensures IssueOf(kc[i]).value.0 in RecordsOf(kc) && RecordsOf(kc)[IssueOf(kc[i]).value.0] == IssueOf(kc[i]).value.1
    {
      LastRecordStays(kc, i);
    }
  }

  lemma LastRecordStays(kc: seq<KcLine>, i: nat)
    requires LastOfItsPair(kc, i)
    ensures IssueOf(kc[i]).value.0 in RecordsOf(kc) && RecordsOf(kc)[IssueOf(kc[i]).value.0] == IssueOf(kc[i]).value.1
  {
    LaterLines(kc, i, IssueOf(kc[i]).value.0);
    ApartAt(kc, i);
    KeptAfter(kc[..i], kc[i], kc[i + 1..], IssueOf(kc[i]).value.0, IssueOf(kc[i]).value.1);
  }

  lemma ApartAt<T>(s: seq<T>, i: nat)
    requires i < |s|
    ensures s == s[..i] + [s[i]] + s[i + 1..]
  {
  }

  lemma LaterLines(kc: seq<KcLine>, i: nat, key: Pair)
    requires i < |kc| && forall j :: i < j < |kc| ==> !StatesPair(kc[j], key)
    ensures forall l :: l in kc[i + 1..] ==> !StatesPair(l, key)
  {
  }

  lemma KeptAfter(front: seq<KcLine>, l: KcLine, more: seq<KcLine>, key: Pair, r: Record)
    requires States(l, key, r) && forall x :: x in more ==> !StatesPair(x, key)
    ensures key in RecordsOf(front + [l] + more) && RecordsOf(front + [l] + more)[key] == r
  {
    RecordedNext(front, l, key, r);
    OthersLeave(front + [l], more, key);
  }

  /** Lines about other pairs leave a record alone. */
  lemma {:induction false} OthersLeave(kc: seq<KcLine>, more: seq<KcLine>, key: Pair)
    requires key in RecordsOf(kc) && forall l :: l in more ==> !StatesPair(l, key)
    ensures key in RecordsOf(kc + more) && RecordsOf(kc + more)[key] == RecordsOf(kc)[key]
    decreases |more|
  {
    if more == [] {
      assert kc + more == kc;
    } else {
      var n := |more| - 1;
      assert (kc + more)[..|kc + more| - 1] == kc + more[..n];
      assert !StatesPair(more[n], key);
      OthersLeave(kc, more[..n], key);
    }
  }

  /** No earlier entry uses the same pair. */
  predicate FirstOfItsPair(ds: seq<Access>, i: nat) {
    && i < |ds| && Real(ds[i].jti)
    && forall j :: 0 <= j < i && Real(ds[j].jti) ==> (ds[j].jti, ds[j].service) != (ds[i].jti, ds[i].service)
  }

  /** The entry that stays for a pair is the first use. */
  lemma {:induction false} FirstUseKept(ds: seq<Access>)
    ensures forall i: nat :: FirstOfItsPair(ds, i) ==>
              (ds[i].jti.value, ds[i].service) in FirstSeen(ds) && FirstSeen(ds)[(ds[i].jti.value, ds[i].service)] == ds[i]
  {
    if ds != [] {
      var n := |ds| - 1;
      FirstUseKept(ds[..n]);
      FirstSeenLaw(ds[..n]);
      forall i: nat | FirstOfItsPair(ds, i)
        ensures (ds[i].jti.value, ds[i].service) in FirstSeen(ds) && FirstSeen(ds)[(ds[i].jti.value, ds[i].service)] == ds[i]
      {
        if i < n { assert FirstOfItsPair(ds[..n], i); }
      }
    }
  }

  /** The set-level reading: every use has an issue record, and no record of its pair names another subject. */
  ghost predicate AllVouched(ds: seq<Access>, kc: seq<KcLine>) {
    forall e :: e in ds && Real(e.jti) ==>
      && (exists l :: l in kc && StatesFor(l, e))
      && (forall l :: l in kc && StatesFor(l, e) ==> Agrees(IssueOf(l).value.1, e))
  }

  predicate StatesFor(l: KcLine, e: Access) {
    IssueOf(l).Some? && Uses(e, IssueOf(l).value.0)
  }

  /** Some used pair on which no use agrees with any record, if it has records at all. */
  ghost predicate Refuted(ds: seq<Access>, kc: seq<KcLine>) {
    exists u :: u in ds && Real(u.jti) && RefutedUse(ds, kc, u)
  }

  ghost predicate RefutedUse(ds: seq<Access>, kc: seq<KcLine>, u: Access) {
    forall e, l :: e in ds && l in kc && e.jti == u.jti && e.service == u.service && StatesFor(l, e) ==>
      !Agrees(IssueOf(l).value.1, e)
  }

  lemma AllVouchedPasses(ds: seq<Access>, kc: seq<KcLine>)
    requires AllVouched(ds, kc)
    ensures LoopVerdict(ds, kc)
  {
    FirstSeenLaw(ds);
    RecordsLaw(kc);
    forall key | key in FirstSeen(ds) ensures Vouched(RecordsOf(kc), key, FirstSeen(ds)[key]) {
      var e := FirstSeen(ds)[key];
      var l :| l in kc && StatesFor(l, e);
      var m :| m in kc && States(m, key, RecordsOf(kc)[key]);
      assert StatesFor(m, e);
    }
  }

  lemma RefutedFails(ds: seq<Access>, kc: seq<KcLine>)
    requires Refuted(ds, kc)
    ensures !LoopVerdict(ds, kc)
  {
    FirstSeenLaw(ds);
    RecordsLaw(kc);
    var u :| u in ds && Real(u.jti) && RefutedUse(ds, kc, u);
    var key := (u.jti.value, u.service);
    var e := FirstSeen(ds)[key];
    if key in RecordsOf(kc) {
      var m :| m in kc && States(m, key, RecordsOf(kc)[key]);
      assert StatesFor(m, e);
    }
    assert !Vouched(RecordsOf(kc), key, e);
  }

  lemma {:induction false} FirstSeenPrefix(p: seq<Access>, ds: seq<Access>)
    ensures forall key :: key in FirstSeen(p) ==> key in FirstSeen(p + ds) && FirstSeen(p + ds)[key] == FirstSeen(p)[key]
    decreases |ds|
  {
    if ds == [] {
      assert p + ds == p;
    } else {
      FirstSeenPrefix(p, ds[..|ds| - 1]);
      assert (p + ds)[..|p + ds| - 1] == p + ds[..|ds| - 1];
    }
  }

  lemma {:induction false} RecordsSuffix(kc: seq<KcLine>, p: seq<KcLine>)
    ensures forall key :: key in RecordsOf(p) ==> key in RecordsOf(kc + p) && RecordsOf(kc + p)[key] == RecordsOf(p)[key]
    decreases |p|
  {
    if p != [] {
      RecordsSuffix(kc, p[..|p| - 1]);
      assert (kc + p)[..|kc + p| - 1] == kc + p[..|p| - 1];
    }
  }

  /** Putting one use first and one record last makes the loops compare exactly these two. */
  lemma SingledOut(ds: seq<Access>, kc: seq<KcLine>, e: Access, l: KcLine)
    requires StatesFor(l, e)
    ensures LoopVerdict([e] + ds, kc + [l]) ==> Agrees(IssueOf(l).value.1, e)
  {
    var key := (e.jti.value, e.service);
    assert FirstSeen([]) == map[] && [e][..0] == [];
    assert FirstSeen([e]) == map[key := e];
    FirstSeenPrefix([e], ds);
    assert RecordsOf([]) == map[] && [l][..0] == [];
    assert RecordsOf([l]) == map[key := IssueOf(l).value.1];
    RecordsSuffix(kc, [l]);
  }

  lemma SeenNext(p: seq<Access>, e: Access, key: Pair)
    requires Uses(e, key) && key !in FirstSeen(p)
    ensures FirstSeen(p + [e]) == FirstSeen(p)[key := e]
  {
    assert (p + [e])[..|p|] == p;
  }

  lemma RecordedNext(q: seq<KcLine>, l: KcLine, key: Pair, r: Record)
    requires States(l, key, r)
    ensures RecordsOf(q + [l]) == RecordsOf(q)[key := r]
  {
    assert (q + [l])[..|q|] == q;
  }

  lemma AgreeingPair(ds: seq<Access>, kc: seq<KcLine>, key: Pair) returns (e: Access, l: KcLine, r: Record)
    requires !Refuted(ds, kc) && key in FirstSeen(ds)
    ensures e in ds && l in kc && Uses(e, key) && States(l, key, r) && Agrees(r, e)
  {
    FirstSeenLaw(ds);
    var u := FirstSeen(ds)[key];
    assert !RefutedUse(ds, kc, u);
    e, l :| e in ds && l in kc && e.jti == u.jti && e.service == u.service && StatesFor(l, e) && Agrees(IssueOf(l).value.1, e);
    r := IssueOf(l).value.1;
  }

  /** `p` and `q` hold, for every pair of `keys`, an agreeing use and record that the loops would keep. */
  ghost predicate Gathered(keys: set<Pair>, p: seq<Access>, q: seq<KcLine>) {
    && FirstSeen(p).Keys == keys
    && RecordsOf(q).Keys == keys
    && forall key :: key in keys ==> Agrees(RecordsOf(q)[key], FirstSeen(p)[key])
  }

  lemma GatherOne(keys: set<Pair>, p: seq<Access>, q: seq<KcLine>, key: Pair, e: Access, l: KcLine, r: Record)
    requires key in keys && Gathered(keys - {key}, p, q)
    requires Uses(e, key) && States(l, key, r) && Agrees(r, e)
    ensures Gathered(keys, p + [e], q + [l])
  {
    SeenNext(p, e, key);
    RecordedNext(q, l, key, r);
  }

  lemma {:induction false} GatherAgreeing(ds: seq<Access>, kc: seq<KcLine>, keys: set<Pair>)
    returns (p: seq<Access>, q: seq<KcLine>)
    requires !Refuted(ds, kc) && keys <= FirstSeen(ds).Keys
    ensures (forall e :: e in p ==> e in ds) && (forall l :: l in q ==> l in kc)
    ensures Gathered(keys, p, q)
    decreases keys
  {
    if keys == {} {
      p, q := [], [];
    } else {
      var key :| key in keys;
      var p0, q0 := GatherAgreeing(ds, kc, keys - {key});
      var e, l, r := AgreeingPair(ds, kc, key);
      GatherOne(keys, p0, q0, key, e, l, r);
      p, q := p0 + [e], q0 + [l];
    }
  }

  lemma AllVouchedArranged(ds: seq<Access>, kc: seq<KcLine>, ds': seq<Access>, kc': seq<KcLine>)
    requires AllVouched(ds, kc) && SameEntries(ds, ds') && SameEntries(kc, kc')
    ensures LoopVerdict(ds', kc')
  {
    assert AllVouched(ds', kc') by {
      forall e: Access | e in ds' && Real(e.jti) ensures exists l :: l in kc' && StatesFor(l, e) {
        assert e in ds;
        var l :| l in kc && StatesFor(l, e);
        assert l in kc';
      }
    }
    AllVouchedPasses(ds', kc');
  }

  /** When some use is not vouched for, a disagreeing record exists or its pair has no record at all. */
  lemma WhyNotVouched(ds: seq<Access>, kc: seq<KcLine>) returns (e: Access, found: Option<KcLine>)
    requires !AllVouched(ds, kc)
    ensures e in ds && Real(e.jti)
    ensures found.Some? ==> found.value in kc && StatesFor(found.value, e) && !Agrees(IssueOf(found.value).value.1, e)
    ensures found.None? ==> forall l :: l in kc ==> !StatesFor(l, e)
  {
    e :| e in ds && Real(e.jti) &&
      !((exists l :: l in kc && StatesFor(l, e)) && (forall l :: l in kc && StatesFor(l, e) ==> Agrees(IssueOf(l).value.1, e)));
    if l: KcLine :| l in kc && StatesFor(l, e) && !Agrees(IssueOf(l).value.1, e) {
      found := Some(l);
    } else {
      found := None;
    }
  }

  lemma UnrecordedRefutes(ds: seq<Access>, kc: seq<KcLine>, e: Access)
    requires e in ds && Real(e.jti) && forall l :: l in kc ==> !StatesFor(l, e)
    ensures Refuted(ds, kc)
  {
    assert RefutedUse(ds, kc, e) by {
      forall f: Access, l: KcLine | f in ds && l in kc && f.jti == e.jti && f.service == e.service
        ensures !StatesFor(l, f)
      {
        assert !StatesFor(l, e);
      }
    }
  }

  lemma FailingArrangement(ds: seq<Access>, kc: seq<KcLine>) returns (ds': seq<Access>, kc': seq<KcLine>)
    requires !AllVouched(ds, kc)
    ensures SameEntries(ds, ds') && SameEntries(kc, kc') && !LoopVerdict(ds', kc')
  {
    var e, found := WhyNotVouched(ds, kc);
    if found.Some? {
      SingledOut(ds, kc, e, found.value);
      ds', kc' := [e] + ds, kc + [found.value];
    } else {
      UnrecordedRefutes(ds, kc, e);
      RefutedFails(ds, kc);
      ds', kc' := ds, kc;
    }
  }

  /** CHECK 2 passes however the logs are reordered or repeated exactly when every use is vouched for. */
  lemma PassesHoweverArranged(ds: seq<Access>, kc: seq<KcLine>)
    ensures (forall ds': seq<Access>, kc': seq<KcLine> :: SameEntries(ds, ds') && SameEntries(kc, kc') ==> LoopVerdict(ds', kc'))
            <==> AllVouched(ds, kc)
  {
    if AllVouched(ds, kc) {
      forall ds': seq<Access>, kc': seq<KcLine> | SameEntries(ds, ds') && SameEntries(kc, kc')
        ensures LoopVerdict(ds', kc')
      {
        AllVouchedArranged(ds, kc, ds', kc');
      }
    } else {
      var ds', kc' := FailingArrangement(ds, kc);
    }
  }

  lemma PassingArrangement(ds: seq<Access>, kc: seq<KcLine>) returns (ds': seq<Access>, kc': seq<KcLine>)
    requires !Refuted(ds, kc)
    ensures SameEntries(ds, ds') && SameEntries(kc, kc') && LoopVerdict(ds', kc')
  {
    var p, q := GatherAgreeing(ds, kc, FirstSeen(ds).Keys);
    ds', kc' := p + ds, kc + q;
    FirstSeenPrefix(p, ds);
    RecordsSuffix(kc, q);
    FirstSeenLaw(ds);
    FirstSeenLaw(ds');
    forall key | key in FirstSeen(ds') ensures Vouched(RecordsOf(kc'), key, FirstSeen(ds')[key]) {
      assert FirstSeen(ds')[key] in ds;
      assert key in FirstSeen(ds);
    }
  }

  /** CHECK 2 fails however the logs are reordered or repeated exactly when some used pair has no agreeing record. */
  lemma FailsHoweverArranged(ds: seq<Access>, kc: seq<KcLine>)
    ensures (forall ds': seq<Access>, kc': seq<KcLine> :: SameEntries(ds, ds') && SameEntries(kc, kc') ==> !LoopVerdict(ds', kc'))
            <==> Refuted(ds, kc)
  {
    if Refuted(ds, kc) {
      forall ds': seq<Access>, kc': seq<KcLine> | SameEntries(ds, ds') && SameEntries(kc, kc')
        ensures !LoopVerdict(ds', kc')
      {
        var u :| u in ds && Real(u.jti) && RefutedUse(ds, kc, u);
        assert u in ds' && RefutedUse(ds', kc', u);
        RefutedFails(ds', kc');
      }
    } else {
      var ds', kc' := PassingArrangement(ds, kc);
    }
  }

  /** One subject per used pair, in the access log and in the event log. */
  ghost predicate OneSubPerPair(ds: seq<Access>, kc: seq<KcLine>) {
    && (forall a, b :: a in ds && b in ds && Real(a.jti) && a.jti == b.jti && a.service == b.service ==> a.sub == b.sub)
    && (forall l, m :: l in kc && m in kc && IssueOf(l).Some? && IssueOf(m).Some? && IssueOf(l).value.0 == IssueOf(m).value.0
          ==> IssueOf(l).value.1.sub == IssueOf(m).value.1.sub)
  }

  /** With one subject per pair the loops decide exactly the set-level question, so order cannot matter. */
  lemma OneSubDecides(ds: seq<Access>, kc: seq<KcLine>)
    requires OneSubPerPair(ds, kc)
    ensures LoopVerdict(ds, kc) <==> AllVouched(ds, kc)
    ensures AllVouched(ds, kc) || Refuted(ds, kc)
  {
    if AllVouched(ds, kc) {
      AllVouchedPasses(ds, kc);
    } else {
      var e, found := WhyNotVouched(ds, kc);
      if found.None? {
        UnrecordedRefutes(ds, kc, e);
      } else {
        assert RefutedUse(ds, kc, e) by {
          forall f: Access, l: KcLine | f in ds && l in kc && f.jti == e.jti && f.service == e.service && StatesFor(l, f)
            ensures !Agrees(IssueOf(l).value.1, f)
          {
            assert IssueOf(l).value.0 == IssueOf(found.value).value.0 && f.sub == e.sub;
          }
        }
      }
      RefutedFails(ds, kc);
    }
  }

  // ---- CHECK 3: access before login ----

  /** The user a LOGIN line is about. */
  function Uid(l: KcLine): (r: Option<string>)
    ensures r.Some? ==> r.value != ""
  {
    var fromJson := if l.parsed.None? then None
                    else if Truthy(l.parsed.value.userId) then l.parsed.value.userId
                    else l.parsed.value.user_id;
    if Truthy(fromJson) then fromJson
    else if l.parsed.None? then KvExtract(l.text, "userId")
    else None
  }

  /** The user of `a` has logins, and all of them are later than `a`. */
  ghost predicate OnlyLaterLogins(kc: seq<KcLine>, a: Access) {
    && (exists l :: l in kc && Uid(l) == a.sub)
    && (forall l :: l in kc && Uid(l) == a.sub ==> l.ts > a.ts)
  }

  ghost predicate PreLoginAccess(svc: seq<Access>, kc: seq<KcLine>) {
    exists a :: a in svc && Real(a.sub) && OnlyLaterLogins(kc, a)
  }

  function AllServices(logs: seq<Access>, start: int, end: int): seq<Access> {
    AccessQuery(logs, USER_FACING + DOWNSTREAM, start, end)
  }

  function LoginLines(kc: seq<KcLine>, start: int, end: int): seq<KcLine> {
    KcQuery(kc, "type=\"LOGIN\"", start, end)
  }

  ghost predicate Check3(logs: seq<Access>, kc: seq<KcLine>, start: int, end: int) {
    !PreLoginAccess(AllServices(logs, start, end), LoginLines(kc, start, end))
  }

  ghost predicate EarliestAccess(svc: seq<Access>, first: map<string, (int, string)>) {
    && (forall a :: a in svc && Real(a.sub) ==> a.sub.value in first && first[a.sub.value].0 <= a.ts)
    && (forall s :: s in first ==> Real(Some(s)) && exists a :: a in svc && a.sub == Some(s) && (a.ts, a.service) == first[s])
  }

  ghost predicate EarliestLogin(kc: seq<KcLine>, first: map<string, int>) {
    && (forall l :: l in kc && Uid(l).Some? ==> Uid(l).value in first && first[Uid(l).value] <= l.ts)
    && (forall s :: s in first ==> exists l :: l in kc && Uid(l) == Some(s) && l.ts == first[s])
  }

  method FirstAccesses(svc: seq<Access>) returns (first: map<string, (int, string)>)
    ensures EarliestAccess(svc, first)
  {
    first := map[];
    for i := 0 to |svc|
      invariant EarliestAccess(svc[..i], first)
    {
      var e := svc[i];
      ghost var was := first;
      assert svc[..i + 1] == svc[..i] + [e];
      if Real(e.sub) && (e.sub.value !in first || e.ts < first[e.sub.value].0) {
        first := first[e.sub.value := (e.ts, e.service)];
      }
      forall s | s in first ensures exists a :: a in svc[..i + 1] && a.sub == Some(s) && (a.ts, a.service) == first[s] {
        if s in was && was[s] == first[s] {
          var a :| a in svc[..i] && a.sub == Some(s) && (a.ts, a.service) == was[s];
          assert a in svc[..i + 1];
        } else {
          assert e in svc[..i + 1];
        }
      }
    }
    assert svc[..|svc|] == svc;
  }

  method FirstLogins(kc: seq<KcLine>) returns (first: map<string, int>)
    ensures EarliestLogin(kc, first)
  {
    first := map[];
    for i := 0 to |kc|
      invariant EarliestLogin(kc[..i], first)
    {
      var l := kc[i];
      ghost var was := first;
      assert kc[..i + 1] == kc[..i] + [l];
      var uid := Uid(l);
      if uid.Some? && (uid.value !in first || l.ts < first[uid.value]) {
        first := first[uid.value := l.ts];
      }
      forall s | s in first ensures exists m :: m in kc[..i + 1] && Uid(m) == Some(s) && m.ts == first[s] {
        if s in was && was[s] == first[s] {
          var m :| m in kc[..i] && Uid(m) == Some(s) && m.ts == was[s];
          assert m in kc[..i + 1];
        } else {
          assert l in kc[..i + 1];
        }
      }
    }
    assert kc[..|kc|] == kc;
  }

  /** The users whose earliest login is later than their earliest access. */
  method HardViolations(firstAccess: map<string, (int, string)>, loginTs: map<string, int>) returns (hard: set<string>)
    ensures hard == set s | s in firstAccess && s in loginTs && loginTs[s] > firstAccess[s].0
  {
    hard := {};
    var todo := firstAccess.Keys;
    while todo != {}
      invariant todo <= firstAccess.Keys
      invariant hard == set s | s in firstAccess && s !in todo && s in loginTs && loginTs[s] > firstAccess[s].0
      decreases todo
    {
      var s :| s in todo;
      todo := todo - {s};
      if s in loginTs && loginTs[s] > firstAccess[s].0 {
        hard := hard + {s};
      }
    }
  }

  /** A LOGIN line of a user inside the window, as the filter and the extraction see it. */
  predicate LoginInWindow(l: KcLine, user: Option<string>, start: int, end: int) {
    Contains(l.text, "type=\"LOGIN\"") && start <= l.ts < end && Uid(l) == user
  }

  /** An access in the window by a real user whose logins in the window all come later, and at least one does. */
  ghost predicate BeforeAllLogins(logs: seq<Access>, kc: seq<KcLine>, start: int, end: int, a: Access) {
    && a in logs && start <= a.ts < end && a.sub !in {None, Some(""), Some("-")}
    && a.service in {"frontend", "order-service", "inventory-service", "warehouse-service", "employee-service"}
    && (exists l :: l in kc && LoginInWindow(l, a.sub, start, end))
    && (forall l :: l in kc && LoginInWindow(l, a.sub, start, end) ==> a.ts < l.ts)
  }

  lemma Check3ReadsLogs(logs: seq<Access>, kc: seq<KcLine>, start: int, end: int)
    ensures !Check3(logs, kc, start, end) <==> exists a :: BeforeAllLogins(logs, kc, start, end, a)
  {
    var svc, logins := AllServices(logs, start, end), LoginLines(kc, start, end);
    forall a ensures a in svc && Real(a.sub) && OnlyLaterLogins(logins, a) <==> BeforeAllLogins(logs, kc, start, end, a) {
      assert forall l :: l in logins && Uid(l) == a.sub <==> l in kc && LoginInWindow(l, a.sub, start, end);
    }
  }

  /** Whom a LOGIN line is about: the first of the two user fields of a JSON line that is not empty, or the text's userId. */
  lemma UidCases(ts: int, text: string, user: string, other: Option<string>)
    ensures Uid(KcLine(ts, text, None)) == KvExtract(text, "userId")
    ensures user != "" ==> Uid(KcLine(ts, text, Some(UserIds(Some(user), other)))) == Some(user)
    ensures user != "" ==> Uid(KcLine(ts, text, Some(UserIds(None, Some(user))))) == Some(user)
                           && Uid(KcLine(ts, text, Some(UserIds(Some(""), Some(user))))) == Some(user)
    ensures other in {None, Some("")} ==> Uid(KcLine(ts, text, Some(UserIds(None, other)))) == None
                                          && Uid(KcLine(ts, text, Some(UserIds(Some(""), other)))) == None
  {
    assert KvExtract(text, "userId") != Some("");
  }

  /** The two folded minima decide whether some user's accesses begin before all of that user's logins. */
  method RunCheck3(logs: seq<Access>, kc: seq<KcLine>, start: int, end: int) returns (ok: bool)
    ensures ok <==> !exists a :: BeforeAllLogins(logs, kc, start, end, a)
    ensures ok <==> Check3(logs, kc, start, end)
  {
    Check3ReadsLogs(logs, kc, start, end);
    var svc, logins := AllServices(logs, start, end), LoginLines(kc, start, end);
    ok := NoPreLoginAccess(svc, logins);
  }

  method NoPreLoginAccess(svc: seq<Access>, logins: seq<KcLine>) returns (ok: bool)
    ensures ok <==> !PreLoginAccess(svc, logins)
  {
    var firstAccess := FirstAccesses(svc);
    var loginTs := FirstLogins(logins);
    var hard := HardViolations(firstAccess, loginTs);
    MinimaDecide(svc, logins, firstAccess, loginTs);
    ok := hard == {};
  }

  lemma MinimaDecide(svc: seq<Access>, kc: seq<KcLine>, first: map<string, (int, string)>, login: map<string, int>)
    requires EarliestAccess(svc, first) && EarliestLogin(kc, login)
    ensures PreLoginAccess(svc, kc) <==> (set s | s in first && s in login && login[s] > first[s].0) != {}
  {
    var hard := set s | s in first && s in login && login[s] > first[s].0;
    if PreLoginAccess(svc, kc) {
      var a :| a in svc && Real(a.sub) && OnlyLaterLogins(kc, a);
      var s := a.sub.value;
      var l :| l in kc && Uid(l) == Some(s) && l.ts == login[s];
      assert s in hard;
    }
    forall s | s in first && s in login && login[s] > first[s].0 ensures PreLoginAccess(svc, kc) {
      var a :| a in svc && a.sub == Some(s) && (a.ts, a.service) == first[s];
      var l :| l in kc && Uid(l) == Some(s) && l.ts == login[s];
      assert OnlyLaterLogins(kc, a);
    }
  }

  /** A violation reported by CHECK 3 is a true pre-login access for every user without an earlier login. */
  lemma Check3Truth(logs: seq<Access>, kc: seq<KcLine>, start: int, end: int, a: Access)
    requires a in AllServices(logs, start, end) && Real(a.sub) && OnlyLaterLogins(LoginLines(kc, start, end), a)
    requires forall l :: l in kc && Contains(l.text, "type=\"LOGIN\"") && Uid(l) == a.sub ==> start <= l.ts
    ensures forall l :: l in kc && Contains(l.text, "type=\"LOGIN\"") && Uid(l) == a.sub ==> a.ts < l.ts
  {
    forall l | l in kc && Contains(l.text, "type=\"LOGIN\"") && Uid(l) == a.sub ensures a.ts < l.ts {
      if l.ts < end { assert l in LoginLines(kc, start, end); }
    }
  }

  // ---- The verdict ----

  ghost predicate Verdict(logs: seq<Access>, kc: seq<KcLine>, start: int, end: int, lookback: int) {
    Check1(logs, start, end) && Check2(logs, kc, start, end, lookback) && Check3(logs, kc, start, end)
  }

  method RunChecks(logs: seq<Access>, kc: seq<KcLine>, start: int, end: int, lookback: int) returns (ok: bool)
    ensures ok <==> Check1(logs, start, end) && Check2(logs, kc, start, end, lookback) && Check3(logs, kc, start, end)
    ensures ok <==> Verdict(logs, kc, start, end, lookback)
  {
    var ok1 := RunCheck1(logs, start, end);
    var ok2 := RunCheck2(logs, kc, start, end, lookback);
    var ok3 := RunCheck3(logs, kc, start, end);
    ok := ok1 && ok2 && ok3;
  }

  /** The script's exit code for the window that ends now. */
  method Report(logs: seq<Access>, kc: seq<KcLine>, now: int, windowSeconds: int, lookbackSeconds: int)
    returns (exitCode: int)
    ensures var start := now - windowSeconds * 1_000_000_000;
            exitCode == if Check1(logs, start, now) && Check2(logs, kc, start, now, lookbackSeconds * 1_000_000_000) && Check3(logs, kc, start, now)
                        then 0 else 1
  {
    var start, lookback := now - windowSeconds * 1_000_000_000, lookbackSeconds * 1_000_000_000;
    var ok := RunChecks(logs, kc, start, now, lookback);
    exitCode := if ok then 0 else 1;
  }

  /** CHECK 1 and CHECK 3 never depend on order or repetition. */
  lemma ChecksOneAndThreeArranged(logs: seq<Access>, kc: seq<KcLine>, logs': seq<Access>, kc': seq<KcLine>, start: int, end: int)
    requires SameEntries(logs, logs') && SameEntries(kc, kc')
    ensures Check1(logs, start, end) <==> Check1(logs', start, end)
    ensures Check3(logs, kc, start, end) <==> Check3(logs', kc', start, end)
  {
    Check1Exact(logs, start, end);
    Check1Exact(logs', start, end);
    assert forall a, b :: ReusedAcrossLayers(logs, start, end, a, b) <==> ReusedAcrossLayers(logs', start, end, a, b);
    var svc, svc' := AllServices(logs, start, end), AllServices(logs', start, end);
    var login, login' := LoginLines(kc, start, end), LoginLines(kc', start, end);
    assert forall a :: a in svc <==> a in svc';
    assert forall l :: l in login <==> l in login';
    assert forall a :: OnlyLaterLogins(login, a) <==> OnlyLaterLogins(login', a);
  }
}
