/**
 Normalising an HTTP request to an action name `verb.object`, and why requests that touch no
 backup can never complete the backup-destruction rule.
 */
module ActionNorm {
  import opened Rules
  import opened Text
  import M = SequenceMatch

  // ---------- path segments ----------

  predicate Separates(c: char) {
    c == '/' || c == '?' || c == '&' || c == '='
  }

  /** The text between separators, empty pieces included. */
  function Pieces(uri: string): (r: seq<string>)
    ensures r != []
  {
    if uri == "" then [""]
    else
      var p, c := Pieces(uri[..|uri| - 1]), uri[|uri| - 1];
      if Separates(c) then p + [""] else p[..|p| - 1] + [p[|p| - 1] + [c]]
  }

  predicate AllDigits(s: string) {
    forall i :: 0 <= i < |s| ==> IsDigit(s[i])
  }

  /** Prefixes, versions and numeric ids (and empty pieces) say nothing about the action. */
  predicate Ignored(low: string) {
    low == "" || low == "api" || low == "rest" || low == "v1" || (|low| > 1 && low[0] == 'v' && AllDigits(low[1..])) || AllDigits(low)
  }

  function Keep(pieces: seq<string>): seq<string> {
    if pieces == [] then []
    else
      var low := Lower(pieces[|pieces| - 1]);
      Keep(pieces[..|pieces| - 1]) + if Ignored(low) then [] else [low]
  }

  function Segments(uri: string): seq<string> {
    Keep(Pieces(uri))
  }

  lemma KeepPush(pieces: seq<string>, p: string)
    ensures Keep(pieces + [p]) == Keep(pieces) + if Ignored(Lower(p)) then [] else [Lower(p)]
  {
    assert (pieces + [p])[..|pieces|] == pieces;
  }

  method Flush(out: seq<string>, cur: string) returns (r: seq<string>)
    ensures r == out + if Ignored(Lower(cur)) then [] else [Lower(cur)]
  {
    r := out;
    if cur == "" {
      assert out + [] == out;
      return;
    }
    var low := Lower(cur);
    if !Ignored(low) { r := out + [low]; }
  }

  /** `path_segments`. */
  method PathSegments(uri: string) returns (out: seq<string>)
    ensures out == Segments(uri)
  {
    hide Ignored, Keep;
    out := Keep([]);
    var cur := "";
    ghost var done: seq<string> := [];
    for i := 0 to |uri|
      invariant out == Keep(done) && Pieces(uri[..i]) == done + [cur]
    {
      assert uri[..i + 1][..i] == uri[..i];
      if Separates(uri[i]) {
        KeepPush(done, cur);
        out := Flush(out, cur);
        done := done + [cur];
        cur := "";
      } else {
        assert (done + [cur])[..|done|] == done;
        cur := cur + [uri[i]];
      }
    }
    assert uri[..|uri|] == uri;
    KeepPush(done, cur);
    out := Flush(out, cur);
  }

  lemma {:induction false} KeepTogether(a: seq<string>, b: seq<string>)
    ensures Keep(a + b) == Keep(a) + Keep(b)
    decreases |b|
  {
    hide Ignored;
    if b == [] {
      assert a + b == a;
    } else {
      var last := |b| - 1;
      KeepTogether(a, b[..last]);
      KeepPush(b[..last], b[last]);
      KeepPush(a + b[..last], b[last]);
      assert b == b[..last] + [b[last]] && a + b == (a + b[..last]) + [b[last]];
    }
  }

  lemma PiecesPush(s: string, c: char)
    ensures var p := Pieces(s);
      Pieces(s + [c]) == if Separates(c) then p + [""] else p[..|p| - 1] + [p[|p| - 1] + [c]]
  {
    assert (s + [c])[..|s|] == s;
  }

  lemma {:induction false} PiecesTogether(a: string, c: char, b: string)
    requires Separates(c)
    ensures Pieces(a + [c] + b) == Pieces(a) + Pieces(b)
    decreases |b|
  {
    if b == "" {
      assert a + [c] + b == a + [c];
      PiecesPush(a, c);
    } else {
      hide Pieces;
      var init, d := b[..|b| - 1], b[|b| - 1];
      var front := a + [c] + init;
      assert b == init + [d];
      Regroup(a + [c], init, d);
      PiecesTogether(a, c, init);
      PiecesPush(front, d);
      PiecesPush(init, d);
      JoinLast(Pieces(a), Pieces(init), d);
    }
  }

  lemma Regroup(a: string, b: string, c: char)
    ensures a + (b + [c]) == (a + b) + [c]
  {
  }

  lemma JoinLast(p: seq<string>, q: seq<string>, c: char)
    requires q != []
    ensures (p + q) + [""] == p + (q + [""])
    ensures (p + q)[..|p + q| - 1] + [(p + q)[|p + q| - 1] + [c]] == p + (q[..|q| - 1] + [q[|q| - 1] + [c]])
  {
    assert (p + q)[..|p + q| - 1] == p + q[..|q| - 1];
  }

  /** Segments of a path are the segments of its parts. */
  lemma SegmentsTogether(a: string, c: char, b: string)
    requires Separates(c)
    ensures Segments(a + [c] + b) == Segments(a) + Segments(b)
  {
    PiecesTogether(a, c, b);
    KeepTogether(Pieces(a), Pieces(b));
  }

  predicate OnePiece(w: string) {
    forall i :: 0 <= i < |w| ==> !Separates(w[i])
  }

  lemma {:induction false} OnePieceIs(w: string)
    requires OnePiece(w)
    ensures Pieces(w) == [w]
  {
    if w != "" {
      var last := |w| - 1;
      OnePieceIs(w[..last]);
      assert w == w[..last] + [w[last]];
      PiecesPush(w[..last], w[last]);
      assert [w[..last]][..0] + [w] == [w];
    }
  }

  /** Putting an id, a version or an API prefix anywhere into a path changes nothing. */
  lemma IgnoredPartVanishes(a: string, w: string, b: string)
    requires OnePiece(w) && Ignored(Lower(w))
    ensures Segments(a + "/" + w + "/" + b) == Segments(a + "/" + b)
  {
    SegmentsTogether(a + "/" + w, '/', b);
    SegmentsTogether(a, '/', w);
    SegmentsTogether(a, '/', b);
    OnePieceIs(w);
    KeepPush([], w);
    assert [] + [w] == [w];
    assert Segments(w) == [];
  }

  // ---------- words ----------

  predicate VerbWord(tok: string) {
    match tok
    case "unmount" => true case "detach" => true case "mount" => true case "attach" => true
    case "restart" => true case "stop" => true case "start" => true case "clear" => true
    case "purge" => true case "clean" => true case "restore" => true case "recover" => true
    case "export" => true case "download" => true case "dump" => true case "grant" => true
    case "privilege" => true case "assign" => true case "distribute" => true case "generate" => true
    case "exec" => true case "execute" => true case "rotate" => true case "revoke" => true
    case "login" => true case "logout" => true
    case _ => false
  }

  /** Inflected verbs are cut to the first of these stems; "" when none fits. */
  function Stem(tok: string): string {
    if "delet" <= tok then "delet"
    else if "remov" <= tok then "remov"
    else if "unmount" <= tok then "unmount"
    else if "detach" <= tok then "detach"
    else if "restart" <= tok then "restart"
    else if "clear" <= tok then "clear"
    else if "pur" <= tok then "pur"
    else if "clean" <= tok then "clean"
    else if "restor" <= tok then "restor"
    else LaterStem(tok)
  }

  function LaterStem(tok: string): string {
    if "export" <= tok then "export"
    else if "download" <= tok then "download"
    else if "dump" <= tok then "dump"
    else if "grant" <= tok then "grant"
    else if "privileg" <= tok then "privileg"
    else if "assign" <= tok then "assign"
    else if "distribut" <= tok then "distribut"
    else if "generat" <= tok then "generat"
    else if "execut" <= tok then "execut"
    else if "rotat" <= tok then "rotat"
    else if "revok" <= tok then "revok"
    else ""
  }

  /** "" when the token is no verb. */
  function VerbOf(tok: string): string {
    if VerbWord(tok) then tok else Stem(tok)
  }

  function Canonical(verb: string): string {
    match verb
    case "privilege" => "grant"
    case "execut" => "exec"
    case "delet" => "delete"
    case "remov" => "delete"
    case "clean" => "clear"
    case "pur" => "clear"
    case "restor" => "restore"
    case "generat" => "create"
    case "distribut" => "distribute"
    case _ => verb
  }

  /** "" when the token is no entity. */
  function EntityOf(tok: string): string {
    match tok
    case "books" => "book" case "book" => "book"
    case "backups" => "backup" case "backup" => "backup" case "bak" => "backup"
    case "snapshots" => "snapshot" case "snapshot" => "snapshot"
    case "volumes" => "volume" case "volume" => "volume" case "storage" => "volume"
    case "logs" => "logs" case "log" => "logs"
    case "configs" => "config" case "config" => "config" case "configuration" => "config"
    case "settings" => "config" case "setting" => "config"
    case "keys" => "key" case "key" => "key" case "secrets" => "key" case "secret" => "key"
    case "certs" => "key" case "cert" => "key"
    case "users" => "user" case "user" => "user"
    case "audits" => "audit" case "audit" => "audit"
    case "services" => "service" case "service" => "service"
    case "systems" => "system" case "system" => "system"
    case "admins" => "admin" case "admin" => "admin"
    case "database" => "db" case "databases" => "db" case "db" => "db" case "data" => "db"
    case "privileges" => "privilege" case "privilege" => "privilege"
    case "roles" => "role" case "role" => "role"
    case _ => ""
  }

  /** The words for a backup. */
  predicate Backup(tok: string) {
    tok in {"backup", "backups", "bak"}
  }

  lemma BackupWord(tok: string)
    ensures EntityOf(tok) == "backup" <==> Backup(tok)
  {
  }

  // ---------- verb and object ----------

  /** One past the last verb segment; 0 when there is none. */
  function LastVerb(segs: seq<string>): (n: nat)
    ensures n <= |segs|
  {
    if segs == [] then 0
    else if VerbOf(segs[|segs| - 1]) != "" then |segs|
    else LastVerb(segs[..|segs| - 1])
  }

  /** The last entity among the first `n` segments. */
  function EntityBefore(segs: seq<string>, n: nat): (r: string)
    requires n <= |segs|
    ensures r != "" ==> exists k :: 0 <= k < n && EntityOf(segs[k]) == r
  {
    if n == 0 then "" else if EntityOf(segs[n - 1]) != "" then EntityOf(segs[n - 1]) else EntityBefore(segs, n - 1)
  }

  /** The first entity from segment `i` on. */
  function EntityFrom(segs: seq<string>, i: nat): (r: string)
    requires i <= |segs|
    ensures r != "" ==> exists k :: i <= k < |segs| && EntityOf(segs[k]) == r
    decreases |segs| - i
  {
    if i == |segs| then "" else if EntityOf(segs[i]) != "" then EntityOf(segs[i]) else EntityFrom(segs, i + 1)
  }

  /** The last entity that qualifies an audit. */
  function Qualifier(segs: seq<string>): (r: string)
    ensures r != "" ==> exists k :: 0 <= k < |segs| && EntityOf(segs[k]) == r
  {
    if segs == [] then ""
    else
      var e := EntityOf(segs[|segs| - 1]);
      if e != "" && e != "audit" then e
      else
        var r := Qualifier(segs[..|segs| - 1]);
        assert forall k :: 0 <= k < |segs| - 1 ==> segs[..|segs| - 1][k] == segs[k];
        r
  }

  function MethodVerb(upper: string): string {
    if upper == "DELETE" then "delete"
    else if upper == "POST" then "create"
    else if upper == "PUT" || upper == "PATCH" then "update"
    else if upper == "GET" || upper == "HEAD" then "read"
    else "call"
  }

  function UpperChar(c: char): char {
    if 'a' <= c <= 'z' then ((c as int) - 32) as char else c
  }

  function Upper(s: string): string {
    seq(|s|, i requires 0 <= i < |s| => UpperChar(s[i]))
  }

  function Verb(segs: seq<string>, method_: string): string {
    var n := LastVerb(segs);
    if n > 0 then Canonical(VerbOf(segs[n - 1])) else MethodVerb(Upper(method_))
  }

  function NearEntity(segs: seq<string>): (r: string)
    ensures r != "" ==> exists k :: 0 <= k < |segs| && EntityOf(segs[k]) == r
  {
    var n := LastVerb(segs);
    if n > 0 then
      var before := EntityBefore(segs, n - 1);
      if before != "" then before else EntityFrom(segs, n)
    else EntityBefore(segs, |segs|)
  }

  function PathObject(segs: seq<string>): string {
    var e := NearEntity(segs);
    if e == "audit" && Qualifier(segs) != "" then Qualifier(segs) + "_audit" else e
  }

  /** The action an exec request names in its body; "" for none. */
  function BodyAction(body: string): string {
    var key := "\"action\"";
    var p := Find(body, key, 0);
    if p == -1 then ""
    else
      var q := Find(body, "\"", p + |key| + 1);
      if q == -1 then ""
      else
        var r := Find(body, "\"", q + 1);
        if r == -1 || r <= q + 1 then "" else Lower(body[q + 1..r])
  }

  function Object(segs: seq<string>, verb: string, body: string): string {
    var action := if verb == "exec" && body != "" then BodyAction(body) else "";
    var o := if action != "" then action else PathObject(segs);
    if o == "" then "unknown" else o
  }

  function NormFromUri(uri: string, method_: string, body: string): string {
    var segs := Segments(uri);
    var verb := Verb(segs, method_);
    verb + "." + Object(segs, verb, body)
  }

  method LastEntity(segs: seq<string>) returns (object_: string)
    ensures object_ == EntityBefore(segs, |segs|)
  {
    hide EntityOf;
    object_ := "";
    for i := 0 to |segs|
      invariant object_ == EntityBefore(segs, i)
    {
      var e := EntityOf(segs[i]);
      if e != "" { object_ := e; }
    }
  }

  method EntityBackwards(segs: seq<string>, n: nat) returns (object_: string)
    requires n <= |segs|
    ensures object_ == EntityBefore(segs, n)
  {
    hide EntityOf;
    object_ := "";
    var k := n;
    while k > 0
      invariant 0 <= k <= n && object_ == "" && EntityBefore(segs, n) == EntityBefore(segs, k)
    {
      object_ := EntityOf(segs[k - 1]);
      if object_ != "" { break; }
      k := k - 1;
    }
  }

  method EntityForwards(segs: seq<string>, i: nat) returns (object_: string)
    requires i <= |segs|
    ensures object_ == EntityFrom(segs, i)
  {
    hide EntityOf;
    object_ := "";
    var k := i;
    while k < |segs|
      invariant i <= k <= |segs| && object_ == "" && EntityFrom(segs, i) == EntityFrom(segs, k)
    {
      object_ := EntityOf(segs[k]);
      if object_ != "" { break; }
      k := k + 1;
    }
  }

  method FindQualifier(segs: seq<string>) returns (qualifier: string)
    ensures qualifier == Qualifier(segs)
  {
    hide EntityOf;
    qualifier := "";
    for i := 0 to |segs|
      invariant qualifier == Qualifier(segs[..i])
    {
      assert segs[..i + 1][..i] == segs[..i];
      var e := EntityOf(segs[i]);
      if e != "" && e != "audit" { qualifier := e; }
    }
    assert segs[..|segs|] == segs;
  }

  method FindVerb(segs: seq<string>) returns (n: nat)
    ensures n == LastVerb(segs)
  {
    hide VerbOf;
    n := |segs|;
    assert segs[..|segs|] == segs;
    while n > 0
      invariant n <= |segs| && LastVerb(segs) == LastVerb(segs[..n])
    {
      if VerbOf(segs[n - 1]) != "" { return; }
      assert segs[..n][..n - 1] == segs[..n - 1];
      n := n - 1;
    }
  }

  /** `norm_from_uri`. */
  method NormalizeUri(uri: string, method_: string, body: string) returns (norm: string)
    ensures norm == NormFromUri(uri, method_, body)
  {
    hide VerbOf, Canonical, MethodVerb, BodyAction, Segments, EntityBefore, EntityFrom, Qualifier, LastVerb, Upper, EntityOf;
    var segs := PathSegments(uri);
    var n := FindVerb(segs);
    var verb, object_ := "", "";
    if n > 0 {
      verb := Canonical(VerbOf(segs[n - 1]));
      object_ := EntityBackwards(segs, n - 1);
      if object_ == "" { object_ := EntityForwards(segs, n); }
    } else {
      verb := MethodVerb(Upper(method_));
      object_ := LastEntity(segs);
    }
    if object_ == "audit" {
      var qualifier := FindQualifier(segs);
      if qualifier != "" { object_ := qualifier + "_audit"; }
    }
    if verb == "exec" && body != "" {
      var action := BodyAction(body);
      if action != "" { object_ := action; }
    }
    if object_ == "" { object_ := "unknown"; }
    norm := verb + "." + object_;
  }

  // ---------- what "delete.backup" needs ----------

  lemma {:induction false} VerbHasNoDot(segs: seq<string>, method_: string)
    ensures '.' !in Verb(segs, method_)
  {
    hide LastVerb, VerbOf, Canonical;
    var n := LastVerb(segs);
    if n > 0 {
      WordHasNoDot(segs[n - 1]);
    }
  }

  lemma {:induction false} WordHasNoDot(tok: string)
    ensures '.' !in Canonical(VerbOf(tok))
  {
    hide VerbWord, Stem, Canonical;
    if VerbWord(tok) { WordIsPlain(tok); } else { StemIsPlain(tok); }
    CanonicalIsPlain(VerbOf(tok));
  }

  lemma WordIsPlain(tok: string)
    requires VerbWord(tok)
    ensures '.' !in tok
  {
  }

  lemma LaterStemIsPlain(tok: string)
    ensures '.' !in LaterStem(tok)
  {
  }

  lemma {:induction false} StemIsPlain(tok: string)
    ensures '.' !in Stem(tok)
  {
    hide LaterStem;
    LaterStemIsPlain(tok);
  }

  lemma CanonicalIsPlain(verb: string)
    requires '.' !in verb
    ensures '.' !in Canonical(verb)
  {
  }

  /** A name splits at its first dot in one way only. */
  lemma SplitAtDot(verb: string, object_: string, other: string, rest: string)
    requires '.' !in verb && '.' !in other && Lower(verb + "." + object_) == other + "." + rest
    ensures Lower(verb) == other && Lower(object_) == rest
  {
    var n := verb + "." + object_;
    var m := Lower(n);
    assert m[|verb|] == '.' && m[|other|] == '.';
    forall i | 0 <= i < |verb| ensures m[i] != '.' { assert n[i] == verb[i]; }
    forall i | 0 <= i < |other| ensures m[i] != '.' { assert m[i] == other[i]; }
    assert Lower(verb) == m[..|verb|] == other;
    assert Lower(object_) == m[|verb| + 1..] == rest;
  }

  lemma AuditIsNoBackup(q: string)
    ensures Lower(q + "_audit") != "backup"
  {
    var o := q + "_audit";
    if |o| == 6 { assert q == "" && o[0] == '_' && Lower(o)[0] == '_'; }
  }

  lemma EntityIsLower(tok: string)
    ensures Lower(EntityOf(tok)) == EntityOf(tok)
  {
  }

  /** A path object is no backup unless some segment names one. */
  lemma {:induction false} BackupObject(segs: seq<string>)
    requires Lower(PathObject(segs)) == "backup"
    ensures exists k :: 0 <= k < |segs| && Backup(segs[k])
  {
    hide NearEntity, Qualifier, EntityOf;
    var e := NearEntity(segs);
    if e == "audit" { AuditIsNoBackup(Qualifier(segs)); }
    assert Lower("audit")[0] == 'a' && Lower("") == "";
    assert Lower(e) == "backup";
    var k :| 0 <= k < |segs| && EntityOf(segs[k]) == e;
    EntityIsLower(segs[k]);
    BackupWord(segs[k]);
  }

  lemma DeleteIsNoExec(verb: string)
    requires Lower(verb) == "delete"
    ensures verb != "exec"
  {
    assert |verb| == 6;
  }

  lemma UnknownIsNoBackup()
    ensures Lower("unknown") != "backup"
  {
    assert |Lower("unknown")| == 7;
  }

  /** A request normalises to delete.backup, in any case, only if one of its segments names a backup. */
  lemma {:induction false} DeleteBackupNeedsBackup(uri: string, method_: string, body: string)
    ensures Lower(NormFromUri(uri, method_, body)) == "delete.backup" ==>
      exists k :: 0 <= k < |Segments(uri)| && Backup(Segments(uri)[k])
  {
    hide Segments, Verb, PathObject, BodyAction, Backup, Lower;
    var segs := Segments(uri);
    var verb := Verb(segs, method_);
    if Lower(NormFromUri(uri, method_, body)) == "delete.backup" {
      VerbHasNoDot(segs, method_);
      assert "delete.backup" == "delete" + "." + "backup";
      SplitAtDot(verb, Object(segs, verb, body), "delete", "backup");
      DeleteIsNoExec(verb);
      UnknownIsNoBackup();
      BackupObject(segs);
    }
  }

  lemma SamePrefix(a: string, b: string, x: string, y: string)
    requires '.' !in a && '.' !in b && a + "." + x == b + "." + y
    ensures a == b && x == y
  {
    var n := a + "." + x;
    assert n[|a|] == '.' && n[|b|] == '.';
    forall i | 0 <= i < |a| ensures n[i] != '.' { assert n[i] == a[i]; }
    forall i | 0 <= i < |b| ensures n[i] != '.' { assert n[i] == b[i]; }
    assert a == n[..|a|] == b;
    assert x == n[|a| + 1..] == y;
  }

  // ---------- the backup-destruction rule ----------

  const BACKUP_RULE := Rule(
    "R-001", true, "backup-group", 2, 85,
    [["delete.backup"], ["unmount.volume", "detach.volume"], ["delete.snapshot"]], "asset_group", 0)

  /** The event carries the action of some request without a backup segment. */
  ghost predicate BackupFree(e: CleanEvent) {
    exists uri, method_, body ::
      e.actionNorm == NormFromUri(uri, method_, body) &&
      forall k :: 0 <= k < |Segments(uri)| ==> !Backup(Segments(uri)[k])
  }

  lemma {:induction false} BackupFreeMissesFirstStep(e: CleanEvent)
    requires BackupFree(e)
    ensures !StepHit(BACKUP_RULE.sequence[0], e)
  {
    hide NormFromUri, Segments, Backup, StepHit;
    var uri, method_, body :| e.actionNorm == NormFromUri(uri, method_, body) &&
      forall k :: 0 <= k < |Segments(uri)| ==> !Backup(Segments(uri)[k]);
    NotEmpty(uri, method_, body);
    var step := BACKUP_RULE.sequence[0];
    assert step == ["delete.backup"] && step[0][6] == '.';
    StrictStepIsEquality(step, e);
    if StepHit(step, e) {
      assert Lower(step[0]) == "delete.backup";
      DeleteBackupNeedsBackup(uri, method_, body);
    }
  }

  lemma NotEmpty(uri: string, method_: string, body: string)
    ensures NormFromUri(uri, method_, body) != ""
  {
  }

  /** No sequence of requests that touch no backup, however long, satisfies the rule. */
  lemma NoBackupNoAlarm(events: seq<CleanEvent>)
    requires forall i :: 0 <= i < |events| ==> BackupFree(events[i])
    ensures !M.Occurs(BACKUP_RULE.sequence, events, StepHit)
  {
    hide StepHit, BackupFree;
    var steps := BACKUP_RULE.sequence;
    forall f ensures !M.Embeds(steps, events, StepHit, f) {
      if M.Embeds(steps, events, StepHit, f) {
        assert f[0] < |events| && StepHit(steps[0], events[f[0]]);
        BackupFreeMissesFirstStep(events[f[0]]);
      }
    }
  }

  /** A query string counts as more path: every request reads as if its '?' were a slash. */
  lemma {:induction false} QueryCountsAsPath(path: string, query: string, method_: string, body: string)
    ensures NormFromUri(path + ['?'] + query, method_, body) == NormFromUri(path + ['/'] + query, method_, body)
  {
    hide Segments;
    SegmentsTogether(path, '?', query);
    SegmentsTogether(path, '/', query);
  }
}
