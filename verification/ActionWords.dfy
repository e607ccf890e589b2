/**
 What the action name of an HTTP request says, told in the words of the request: the tables turned round, from
 canonical names to the words that stand for them.
 */
module ActionWords {
  import opened ActionNorm
  import opened Rules
  import opened Text
  import M = SequenceMatch

  // ---------- words for entities ----------

  /** All words for an entity; none for anything else. */
  function WordsFor(entity: string): set<string> {
    match entity
    case "book" => {"book", "books"}
    case "backup" => {"backup", "backups", "bak"}
    case "snapshot" => {"snapshot", "snapshots"}
    case "volume" => {"volume", "volumes", "storage"}
    case "logs" => {"log", "logs"}
    case "config" => {"config", "configs", "configuration", "setting", "settings"}
    case "key" => {"key", "keys", "secret", "secrets", "cert", "certs"}
    case "user" => {"user", "users"}
    case "audit" => {"audit", "audits"}
    case "service" => {"service", "services"}
    case "system" => {"system", "systems"}
    case "admin" => {"admin", "admins"}
    case "db" => {"db", "data", "database", "databases"}
    case "privilege" => {"privilege", "privileges"}
    case "role" => {"role", "roles"}
    case _ => {}
  }

  lemma EntityExactly(tok: string, entity: string)
    requires entity != ""
    ensures EntityOf(tok) == entity <==> tok in WordsFor(entity)
  {
    hide EntityOf, WordsFor;
    if EntityOf(tok) == entity { EntityHasWord(tok); }
    if tok in WordsFor(entity) { WordHasEntity(tok, entity); }
  }

  lemma EntityHasWord(tok: string)
    requires EntityOf(tok) != ""
    ensures tok in WordsFor(EntityOf(tok))
  {
  }

  lemma ShortWordHasEntity(tok: string, entity: string)
    requires tok in WordsFor(entity) && |entity| <= 4
    ensures EntityOf(tok) == entity
  {
  }

  lemma LongWordHasEntity(tok: string, entity: string)
    requires tok in WordsFor(entity) && |entity| > 4
    ensures EntityOf(tok) == entity
  {
  }

  lemma WordHasEntity(tok: string, entity: string)
    requires tok in WordsFor(entity)
    ensures EntityOf(tok) == entity
  {
    hide *;
    if |entity| <= 4 { ShortWordHasEntity(tok, entity); } else { LongWordHasEntity(tok, entity); }
  }

  // ---------- words for actions ----------

  /** The path segment says this action. Inflected words count by their stem; some whole words stand for themselves. */
  predicate Says(tok: string, action: string) {
    match action
    case "delete" => "delet" <= tok || "remov" <= tok
    case "clear" => "clear" <= tok || "clean" <= tok || ("pur" <= tok && tok != "purge")
    case "purge" => tok == "purge"
    case "restore" => "restor" <= tok
    case "create" => "generat" <= tok && tok != "generate"
    case "generate" => tok == "generate"
    case "exec" => tok == "exec" || ("execut" <= tok && tok != "execute")
    case "execute" => tok == "execute"
    case "grant" => "grant" <= tok || tok == "privilege"
    case "privileg" => "privileg" <= tok && tok != "privilege"
    case "rotate" => tok == "rotate"
    case "rotat" => "rotat" <= tok && tok != "rotate"
    case "revoke" => tok == "revoke"
    case "revok" => "revok" <= tok && tok != "revoke"
    case "distribute" => "distribut" <= tok
    case "mount" => tok == "mount"
    case "attach" => tok == "attach"
    case "stop" => tok == "stop"
    case "start" => tok == "start"
    case "recover" => tok == "recover"
    case "login" => tok == "login"
    case "logout" => tok == "logout"
    case _ => action in STEMS && action <= tok
  }

  /** Actions that are their own stem. */
  const STEMS := {"unmount", "detach", "restart", "export", "download", "dump", "assign"}

  function Action(tok: string): string {
    Canonical(VerbOf(tok))
  }

  lemma ShortWordSays(tok: string)
    requires VerbWord(tok) && |tok| <= 6
    ensures Says(tok, Canonical(tok))
  {
  }

  lemma LongWordSays(tok: string)
    requires VerbWord(tok) && |tok| > 6
    ensures Says(tok, Canonical(tok))
  {
  }

  lemma WordSays(tok: string)
    requires VerbWord(tok)
    ensures Says(tok, Canonical(tok))
  {
    hide *;
    if |tok| <= 6 { ShortWordSays(tok); } else { LongWordSays(tok); }
  }

  lemma ShortStemSays(tok: string)
    requires 0 < |LaterStem(tok)| <= 5 && !VerbWord(tok)
    ensures Says(tok, Canonical(LaterStem(tok)))
  {
  }

  lemma LongStemSays(tok: string)
    requires 5 < |LaterStem(tok)| <= 6 && !VerbWord(tok)
    ensures Says(tok, Canonical(LaterStem(tok)))
  {
  }

  lemma LongestStemSays(tok: string)
    requires |LaterStem(tok)| > 6 && !VerbWord(tok)
    ensures Says(tok, Canonical(LaterStem(tok)))
  {
  }

  lemma LaterStemSays(tok: string)
    requires LaterStem(tok) != "" && !VerbWord(tok)
    ensures Says(tok, Canonical(LaterStem(tok)))
  {
    hide *;
    if |LaterStem(tok)| <= 5 { ShortStemSays(tok); } else if |LaterStem(tok)| <= 6 { LongStemSays(tok); } else { LongestStemSays(tok); }
  }

  lemma StemSays(tok: string)
    requires Stem(tok) != "" && !VerbWord(tok)
    ensures Says(tok, Canonical(Stem(tok)))
  {
    hide LaterStem;
    if Stem(tok) == LaterStem(tok) { LaterStemSays(tok); }
  }

  function Letter(tok: string, k: nat): char {
    if k < |tok| then tok[k] else ' '
  }

  /** A few letters tell all these words apart. */
  function ByLetters(tok: string): string {
    match Letter(tok, 0)
    case 'a' => if Letter(tok, 1) == 's' then "assign" else "attach"
    case 'c' => "clear"
    case 'd' =>
      if Letter(tok, 1) == 'o' then "download" else if Letter(tok, 1) == 'u' then "dump"
      else if Letter(tok, 1) == 'i' then "distribute" else if Letter(tok, 2) == 'l' then "delete" else "detach"
    case 'e' =>
      if Letter(tok, 2) == 'p' then "export" else if tok == "execute" then tok else "exec"
    case 'g' => if Letter(tok, 1) == 'r' then "grant" else if tok == "generate" then tok else "create"
    case 'l' => if Letter(tok, 3) == 'i' then "login" else "logout"
    case 'm' => "mount"
    case 'p' =>
      if Letter(tok, 1) == 'u' then if tok == "purge" then tok else "clear"
      else if tok == "privilege" then "grant" else "privileg"
    case 'r' => ByLettersR(tok)
    case 's' => if Letter(tok, 2) == 'o' then "stop" else "start"
    case _ => "unmount"
  }

  function ByLettersR(tok: string): string {
    if Letter(tok, 1) == 'o' then if tok == "rotate" then tok else "rotat"
    else if Letter(tok, 2) == 'm' then "delete"
    else if Letter(tok, 2) == 'c' then "recover"
    else if Letter(tok, 2) == 'v' then if tok == "revoke" then tok else "revok"
    else if Letter(tok, 4) == 'a' then "restart" else "restore"
  }

  lemma ShortByLetters(tok: string, action: string)
    requires Says(tok, action) && |action| <= 6
    ensures action == ByLetters(tok)
  {
  }

  lemma LongByLetters(tok: string, action: string)
    requires Says(tok, action) && |action| > 6
    ensures action == ByLetters(tok)
  {
  }

  lemma SaysByLetters(tok: string, action: string)
    requires Says(tok, action)
    ensures action == ByLetters(tok)
  {
    hide *;
    if |action| <= 6 { ShortByLetters(tok, action); } else { LongByLetters(tok, action); }
  }

  lemma SaysSomething(tok: string, action: string)
    requires Says(tok, action)
    ensures VerbOf(tok) != ""
  {
  }

  /** A segment is taken for an action exactly when it says it, and for at most one. */
  lemma ActionExactly(tok: string, action: string)
    requires action != ""
    ensures Action(tok) == action <==> Says(tok, action)
  {
    hide Stem, VerbWord, Canonical, ByLetters, Says;
    if VerbOf(tok) != "" {
      if VerbWord(tok) { WordSays(tok); } else { StemSays(tok); }
      SaysByLetters(tok, Action(tok));
    }
    if Says(tok, action) {
      SaysByLetters(tok, action);
      SaysSomething(tok, action);
    }
    NothingSaid();
  }

  lemma NothingSaid()
    ensures Canonical("") == ""
  {
  }

  predicate LowerCase(s: string) {
    forall i :: 0 <= i < |s| ==> !('A' <= s[i] <= 'Z')
  }

  lemma LowerCaseIsLower(s: string)
    requires LowerCase(s)
    ensures Lower(s) == s
  {
  }

  const EARLY := ["assign", "attach", "clear", "create", "delete", "detach", "distribute", "download", "dump", "exec"]

  const MIDDLE := ["execute", "export", "generate", "grant", "login", "logout", "mount", "privileg", "purge", "recover"]

  const LATE := ["restart", "restore", "revok", "revoke", "rotat", "rotate", "start", "stop", "unmount"]

  lemma AllActions(tok: string, action: string)
    requires Says(tok, action)
    ensures action in EARLY || action in MIDDLE || action in LATE
  {
  }

  predicate PlainWord(s: string) {
    forall i :: 0 <= i < |s| ==> 'a' <= s[i] <= 'z'
  }

  lemma PlainLists(k: nat)
    ensures (k < |EARLY| ==> PlainWord(EARLY[k])) && (k < |MIDDLE| ==> PlainWord(MIDDLE[k])) && (k < |LATE| ==> PlainWord(LATE[k]))
  {
  }

  lemma ActionIsPlain(tok: string, action: string)
    requires Says(tok, action)
    ensures PlainWord(action) && LowerCase(action) && '.' !in action && action != ""
  {
    AllActions(tok, action);
    hide Says;
    forall k | 0 <= k < 10
      ensures (k < |EARLY| ==> PlainWord(EARLY[k])) && (k < |MIDDLE| ==> PlainWord(MIDDLE[k])) && (k < |LATE| ==> PlainWord(LATE[k]))
    {
      PlainLists(k);
    }
  }

  // ---------- what a request does, and to what ----------

  ghost predicate IsAction(tok: string) {
    exists action :: action != "" && Says(tok, action)
  }

  ghost predicate IsEntity(tok: string) {
    exists entity :: tok in WordsFor(entity)
  }

  /** The method's verb, when the path has none. */
  predicate MethodSays(method_: string, action: string) {
    match action
    case "delete" => Lower(method_) == "delete"
    case "create" => Lower(method_) == "post"
    case "update" => Lower(method_) == "put" || Lower(method_) == "patch"
    case "read" => Lower(method_) == "get" || Lower(method_) == "head"
    case "call" => Lower(method_) !in {"delete", "post", "put", "patch", "get", "head"}
    case _ => false
  }

  ghost predicate LastAction(segs: seq<string>, n: nat) {
    n < |segs| && IsAction(segs[n]) && forall k :: n < k < |segs| ==> !IsAction(segs[k])
  }

  ghost predicate NoAction(segs: seq<string>) {
    forall k :: 0 <= k < |segs| ==> !IsAction(segs[k])
  }

  /** The last action word of the path, or else the method, says `action`. */
  ghost predicate Does(segs: seq<string>, method_: string, action: string) {
    || (exists n: nat :: LastAction(segs, n) && Says(segs[n], action))
    || (NoAction(segs) && MethodSays(method_, action))
  }

  /** The last entity word among the first `n` segments is one for `entity`. */
  ghost predicate NamedBefore(segs: seq<string>, n: nat, entity: string)
    requires n <= |segs|
  {
    exists k :: 0 <= k < n && segs[k] in WordsFor(entity) && forall j :: k < j < n ==> !IsEntity(segs[j])
  }

  /** The first entity word from segment `n` on is one for `entity`. */
  ghost predicate NamedFrom(segs: seq<string>, n: nat, entity: string)
    requires n <= |segs|
  {
    exists k :: n <= k < |segs| && segs[k] in WordsFor(entity) && forall j :: n <= j < k ==> !IsEntity(segs[j])
  }

  ghost predicate NoEntity(segs: seq<string>, n: nat)
    requires n <= |segs|
  {
    forall k :: 0 <= k < n ==> !IsEntity(segs[k])
  }

  /** What the action is about: the entity nearest before its word, else the first behind it; without a word, the last entity. */
  ghost predicate Names(segs: seq<string>, entity: string) {
    || (exists n: nat :: LastAction(segs, n) && (NamedBefore(segs, n, entity) || (NoEntity(segs, n) && NamedFrom(segs, n + 1, entity))))
    || (NoAction(segs) && NamedBefore(segs, |segs|, entity))
  }

  // ---------- the tables against the words ----------

  lemma ActionWord(tok: string)
    ensures IsAction(tok) <==> VerbOf(tok) != ""
  {
    hide Says, VerbOf;
    if IsAction(tok) {
      var action :| action != "" && Says(tok, action);
      SaysSomething(tok, action);
    }
    if VerbOf(tok) != "" {
      CanonicalNotEmpty(VerbOf(tok));
      ActionExactly(tok, Action(tok));
    }
  }

  lemma CanonicalNotEmpty(verb: string)
    requires verb != ""
    ensures Canonical(verb) != ""
  {
  }

  lemma EntityWord(tok: string)
    ensures IsEntity(tok) <==> EntityOf(tok) != ""
  {
    hide EntityOf, WordsFor;
    if entity :| tok in WordsFor(entity) {
      NothingForNothing();
      EntityExactly(tok, entity);
    }
    if EntityOf(tok) != "" { EntityExactly(tok, EntityOf(tok)); }
  }

  lemma NothingForNothing()
    ensures WordsFor("") == {}
  {
  }

  lemma {:induction false} LastVerbIs(segs: seq<string>)
    ensures var n := LastVerb(segs); if n == 0 then NoAction(segs) else LastAction(segs, n - 1)
  {
    hide IsAction, VerbOf;
    if segs != [] {
      var last := |segs| - 1;
      ActionWord(segs[last]);
      LastVerbIs(segs[..last]);
      assert segs == segs[..last] + [segs[last]];
    }
  }

  lemma {:induction false} EntityBeforeIs(segs: seq<string>, n: nat, entity: string)
    requires n <= |segs| && entity != ""
    ensures EntityBefore(segs, n) == entity <==> NamedBefore(segs, n, entity)
    ensures EntityBefore(segs, n) == "" <==> NoEntity(segs, n)
  {
    hide IsEntity, EntityOf, WordsFor;
    if n > 0 {
      EntityWord(segs[n - 1]);
      EntityExactly(segs[n - 1], entity);
      EntityBeforeIs(segs, n - 1, entity);
      WordIsEntity(segs[n - 1], entity);
    }
  }

  lemma WordIsEntity(tok: string, entity: string)
    ensures tok in WordsFor(entity) ==> IsEntity(tok)
  {
    hide WordsFor;
  }

  lemma {:induction false} EntityFromIs(segs: seq<string>, n: nat, entity: string)
    requires n <= |segs| && entity != ""
    ensures EntityFrom(segs, n) == entity <==> NamedFrom(segs, n, entity)
    decreases |segs| - n
  {
    hide IsEntity, EntityOf, WordsFor;
    if n < |segs| {
      EntityWord(segs[n]);
      EntityExactly(segs[n], entity);
      EntityFromIs(segs, n + 1, entity);
      WordIsEntity(segs[n], entity);
    }
  }

  // ---------- the action name, word by word ----------

  lemma UpperMeansLower(m: string, upper: string)
    requires forall i :: 0 <= i < |upper| ==> 'A' <= upper[i] <= 'Z'
    ensures Upper(m) == upper <==> Lower(m) == Lower(upper)
  {
    if |m| == |upper| {
      forall i | 0 <= i < |m| ensures Upper(m)[i] == upper[i] <==> Lower(m)[i] == Lower(upper)[i] {
      }
    }
  }

  lemma MethodVerbIs(method_: string, action: string)
    ensures MethodVerb(Upper(method_)) == action <==> MethodSays(method_, action)
    ensures PlainWord(MethodVerb(Upper(method_))) && MethodVerb(Upper(method_)) != ""
  {
    UpperMeansLower(method_, "DELETE");
    UpperMeansLower(method_, "POST");
    UpperMeansLower(method_, "PUT");
    UpperMeansLower(method_, "PATCH");
    UpperMeansLower(method_, "GET");
    UpperMeansLower(method_, "HEAD");
    MethodNames();
    MethodVerbIsPlain(Upper(method_));
    hide Upper, Lower, PlainWord;
  }

  lemma MethodVerbIsPlain(upper: string)
    ensures PlainWord(MethodVerb(upper)) && MethodVerb(upper) != ""
  {
  }

  lemma MethodNames()
    ensures Lower("DELETE") == "delete" && Lower("POST") == "post" && Lower("PUT") == "put"
    ensures Lower("PATCH") == "patch" && Lower("GET") == "get" && Lower("HEAD") == "head"
  {
  }

  lemma VerbIs(segs: seq<string>, method_: string, action: string)
    requires action != ""
    ensures Verb(segs, method_) == action <==> Does(segs, method_, action)
    ensures PlainWord(Verb(segs, method_)) && Verb(segs, method_) != ""
  {
    hide IsAction, VerbOf, Canonical, MethodVerb, Upper, Says, MethodSays, PlainWord, LastVerb;
    var n := LastVerb(segs);
    LastVerbIs(segs);
    MethodVerbIs(method_, action);
    if n > 0 {
      var tok := segs[n - 1];
      ActionExactly(tok, action);
      ActionWord(tok);
      CanonicalNotEmpty(VerbOf(tok));
      ActionExactly(tok, Action(tok));
      ActionIsPlain(tok, Action(tok));
    }
  }

  lemma NamesAt(segs: seq<string>, n: nat, entity: string)
    requires LastAction(segs, n)
    ensures Names(segs, entity) <==> NamedBefore(segs, n, entity) || (NoEntity(segs, n) && NamedFrom(segs, n + 1, entity))
  {
    hide IsAction, NamedBefore, NamedFrom, NoEntity;
    if m: nat :| LastAction(segs, m) && (NamedBefore(segs, m, entity) || (NoEntity(segs, m) && NamedFrom(segs, m + 1, entity))) {
      assert m == n;
    }
  }

  lemma NamesAnywhere(segs: seq<string>, entity: string)
    requires NoAction(segs)
    ensures Names(segs, entity) <==> NamedBefore(segs, |segs|, entity)
  {
    hide IsAction, NamedBefore, NamedFrom, NoEntity;
  }

  lemma NearEntityIs(segs: seq<string>, entity: string)
    requires entity != ""
    ensures NearEntity(segs) == entity <==> Names(segs, entity)
  {
    hide IsAction, EntityBefore, EntityFrom, NamedBefore, NamedFrom, NoEntity, LastVerb, LastAction, NoAction, Names;
    var n := LastVerb(segs);
    LastVerbIs(segs);
    if n == 0 {
      NamesAnywhere(segs, entity);
      EntityBeforeIs(segs, |segs|, entity);
    } else {
      NamesAt(segs, n - 1, entity);
      EntityBeforeIs(segs, n - 1, entity);
      EntityFromIs(segs, n, entity);
      OnlyOneName(segs, n - 1, entity);
    }
  }

  lemma OnlyOneName(segs: seq<string>, n: nat, entity: string)
    requires n <= |segs|
    ensures NamedBefore(segs, n, entity) ==> !NoEntity(segs, n)
  {
    hide IsEntity, WordsFor;
    if NamedBefore(segs, n, entity) {
      var k :| 0 <= k < n && segs[k] in WordsFor(entity) && forall j :: k < j < n ==> !IsEntity(segs[j]);
      WordIsEntity(segs[k], entity);
    }
  }

  lemma EntityIsPlain(entity: string)
    requires WordsFor(entity) != {}
    ensures PlainWord(entity) && entity != "" && entity != "unknown"
  {
  }

  lemma AuditIsApart(entity: string, q: string)
    requires PlainWord(entity)
    ensures q + "_audit" != entity
  {
    var o := q + "_audit";
    assert o[|q|] == '_';
  }

  /** An action name is what the words of the request say, and of which entity. */
  lemma RequestExactly(uri: string, method_: string, body: string, action: string, entity: string)
    requires action != "" && action != "exec" && PlainWord(action) && WordsFor(entity) != {} && entity != "audit"
    ensures NormFromUri(uri, method_, body) == action + "." + entity
       <==> Does(Segments(uri), method_, action) && Names(Segments(uri), entity)
  {
    hide Segments, Does, Names, WordsFor, BodyAction, NearEntity, Qualifier, Verb;
    var segs := Segments(uri);
    EntityIsPlain(entity);
    VerbIs(segs, method_, action);
    NearEntityIs(segs, entity);
    AuditIsApart(entity, Qualifier(segs));
    var verb, object_ := Verb(segs, method_), Object(segs, Verb(segs, method_), body);
    if NormFromUri(uri, method_, body) == action + "." + entity {
      SamePrefix(verb, action, object_, entity);
    }
  }

  /** Without an action word in the path: a DELETE whose last entity word is one for the entity. */
  lemma DeleteExactly(uri: string, method_: string, body: string, entity: string)
    requires NoAction(Segments(uri)) && WordsFor(entity) != {} && entity != "audit"
    ensures NormFromUri(uri, method_, body) == "delete." + entity
       <==> Lower(method_) == "delete" && NamedBefore(Segments(uri), |Segments(uri)|, entity)
  {
    hide Segments, NamedBefore, WordsFor, IsAction, NormFromUri;
    assert "delete" + "." + entity == "delete." + entity;
    RequestExactly(uri, method_, body, "delete", entity);
  }

  /** A request that names no entity. */
  lemma NothingNamed(uri: string, method_: string, body: string, action: string)
    requires action != "exec" && action != "" && Does(Segments(uri), method_, action) && NoEntity(Segments(uri), |Segments(uri)|)
    ensures NormFromUri(uri, method_, body) == action + ".unknown"
  {
    hide Segments, Does, NoEntity, NamedBefore, BodyAction, Verb, Qualifier, WordsFor, IsEntity, Names;
    var segs := Segments(uri);
    VerbIs(segs, method_, action);
    if NearEntity(segs) != "" {
      NearEntityIs(segs, NearEntity(segs));
      NamesAWord(segs, NearEntity(segs));
    }
    assert action + "." + "unknown" == action + ".unknown";
  }

  lemma NamesAWord(segs: seq<string>, entity: string)
    requires Names(segs, entity)
    ensures !NoEntity(segs, |segs|)
  {
    hide IsAction, WordsFor;
    forall k | 0 <= k < |segs| ensures segs[k] in WordsFor(entity) ==> IsEntity(segs[k]) {
      WordIsEntity(segs[k], entity);
    }
  }

  /** The last entity word that is none for an audit is one for `entity`. */
  ghost predicate Audited(segs: seq<string>, entity: string) {
    exists k: nat :: AuditedAt(segs, entity, k)
  }

  ghost predicate AuditedAt(segs: seq<string>, entity: string, k: nat) {
    && k < |segs| && segs[k] in WordsFor(entity) && entity != "audit"
    && forall j :: k < j < |segs| ==> !IsEntity(segs[j]) || segs[j] in {"audit", "audits"}
  }

  lemma {:induction false} QualifierIs(segs: seq<string>, entity: string)
    requires entity != ""
    ensures Qualifier(segs) == entity <==> Audited(segs, entity)
  {
    hide IsEntity, EntityOf, WordsFor;
    if segs != [] {
      var last := |segs| - 1;
      EntityWord(segs[last]);
      EntityExactly(segs[last], entity);
      EntityExactly(segs[last], "audit");
      AuditWords();
      WordIsEntity(segs[last], entity);
      QualifierIs(segs[..last], entity);
      MoreAudited(segs, entity);
    }
  }

  lemma AuditWords()
    ensures WordsFor("audit") == {"audit", "audits"}
  {
  }

  lemma MoreAudited(segs: seq<string>, entity: string)
    requires segs != []
    ensures var last := |segs| - 1;
      Audited(segs, entity) <==>
        (segs[last] in WordsFor(entity) && entity != "audit")
        || (Audited(segs[..last], entity) && (!IsEntity(segs[last]) || segs[last] in {"audit", "audits"}))
  {
    hide IsEntity, WordsFor;
    var last := |segs| - 1;
    assert forall j :: 0 <= j < last ==> segs[..last][j] == segs[j];
    if k: nat :| AuditedAt(segs[..last], entity, k) {
      if !IsEntity(segs[last]) || segs[last] in {"audit", "audits"} { assert AuditedAt(segs, entity, k); }
    }
    if k: nat :| AuditedAt(segs, entity, k) {
      if k < last { assert AuditedAt(segs[..last], entity, k); }
    }
    if segs[last] in WordsFor(entity) && entity != "audit" { assert AuditedAt(segs, entity, last); }
  }

  /** An audit is named after the last other entity of the path, if there is one. */
  lemma AuditExactly(uri: string, method_: string, body: string, action: string)
    requires action != "exec" && action != "" && Does(Segments(uri), method_, action) && Names(Segments(uri), "audit")
    ensures forall entity :: entity != "" && Audited(Segments(uri), entity) ==>
              NormFromUri(uri, method_, body) == action + "." + entity + "_audit"
    ensures (forall entity :: entity != "" ==> !Audited(Segments(uri), entity)) ==> NormFromUri(uri, method_, body) == action + ".audit"
  {
    hide Segments, Does, BodyAction, Verb, Qualifier, Names, Audited, NearEntity;
    var segs := Segments(uri);
    VerbIs(segs, method_, action);
    NearEntityIs(segs, "audit");
    var q := Qualifier(segs);
    forall entity | entity != "" ensures q == entity <==> Audited(segs, entity) {
      QualifierIs(segs, entity);
    }
    if q != "" { assert Audited(segs, q); }
    assert action + "." + "audit" == action + ".audit";
    assert action + "." + (q + "_audit") == action + "." + q + "_audit";
  }

  // ---------- path segments ----------

  /** Says nothing about the action: empty, an id, a version or an API prefix, in any case. */
  predicate Silent(w: string) {
    || (forall i :: 0 <= i < |w| ==> '0' <= w[i] <= '9')
    || Lower(w) in {"api", "rest"}
    || (|w| > 1 && w[0] in {'v', 'V'} && forall i :: 1 <= i < |w| ==> '0' <= w[i] <= '9')
  }

  /** One word of a path: kept in lower case unless it is silent. */
  lemma WordExactly(w: string)
    requires '/' !in w && '?' !in w && '&' !in w && '=' !in w
    ensures Segments(w) == if Silent(w) then [] else [Lower(w)]
  {
    OnePieceIs(w);
    KeepPush([], w);
    assert [] + [w] == [w];
    SilentIsIgnored(w);
  }

  lemma SilentIsIgnored(w: string)
    ensures Ignored(Lower(w)) <==> Silent(w)
  {
    var low := Lower(w);
    forall i | 0 <= i < |w| ensures IsDigit(low[i]) <==> '0' <= w[i] <= '9' {
    }
    if low == "v1" { assert low[0] == 'v' && low[1] == '1' && IsDigit(low[1]); }
    if |w| > 1 {
      assert AllDigits(low[1..]) <==> forall i :: 1 <= i < |w| ==> IsDigit(low[i]) by {
        assert forall i :: 1 <= i < |w| ==> low[1..][i - 1] == low[i];
      }
    }
  }

  /** Slashes, question marks, ampersands and equal signs all separate, and nothing is lost between them. */
  lemma SeparatedExactly(a: string, c: char, b: string)
    requires c in {'/', '?', '&', '='}
    ensures Segments(a + [c] + b) == Segments(a) + Segments(b)
  {
    SegmentsTogether(a, c, b);
  }

  // ---------- what an exec request runs ----------

  /** The action named first in the body of an exec request becomes the object. */
  lemma ExecExactly(uri: string, method_: string, act: string, rest: string)
    requires Does(Segments(uri), method_, "exec") && act != "" && '"' !in act
    ensures NormFromUri(uri, method_, "{\"action\":\"" + act + "\"" + rest) == "exec." + Lower(act)
  {
    hide Segments, Does, BodyAction;
    var segs, body := Segments(uri), "{\"action\":\"" + act + "\"" + rest;
    VerbIs(segs, method_, "exec");
    BodyActionIs(act, rest);
    assert "exec" + "." + Lower(act) == "exec." + Lower(act);
  }

  lemma BodyActionIs(act: string, rest: string)
    requires act != "" && '"' !in act
    ensures BodyAction("{\"action\":\"" + act + "\"" + rest) == Lower(act)
  {
    var body, key := "{\"action\":\"" + act + "\"" + rest, "\"action\"";
    assert body[1..9] == key && body[0] == '{';
    OtherChar(body, key, 0, 0);
    FindIs(body, key, 0, 1);
    assert body[10..11] == "\"";
    FindIs(body, "\"", 10, 10);
    forall i | 11 <= i < 11 + |act| ensures !StandsAt(body, "\"", i) {
      assert body[i] == act[i - 11];
      OtherChar(body, "\"", i, 0);
    }
    assert body[11 + |act|..12 + |act|] == "\"";
    FindIs(body, "\"", 11, 11 + |act|);
    assert body[11..11 + |act|] == act;
  }

  // ---------- the backup-destruction rule ----------

  datatype Request = Request(uri: string, method_: string, body: string)

  ghost predicate Performs(q: Request, action: string, entity: string) {
    Does(Segments(q.uri), q.method_, action) && Names(Segments(q.uri), entity)
  }

  /** The events carry the action names of these requests. */
  ghost predicate Carry(events: seq<CleanEvent>, requests: seq<Request>) {
    && |events| == |requests|
    && forall i :: 0 <= i < |events| ==>
         events[i].actionNorm == NormFromUri(requests[i].uri, requests[i].method_, requests[i].body)
  }

  lemma NormIsLower(q: Request)
    ensures var norm := NormFromUri(q.uri, q.method_, q.body); Lower(norm) == norm && norm != ""
  {
    hide Segments, Verb, BodyAction, PathObject;
    var segs := Segments(q.uri);
    var verb := Verb(segs, q.method_);
    VerbIs(segs, q.method_, "delete");
    ObjectIsLower(segs, verb, q.body);
    LowerJoins(verb, Object(segs, verb, q.body));
  }

  lemma LowerJoins(verb: string, object_: string)
    requires PlainWord(verb) && Lower(object_) == object_
    ensures Lower(verb + "." + object_) == verb + "." + object_
  {
    var n := verb + "." + object_;
    forall i | 0 <= i < |n| ensures LowerChar(n[i]) == n[i] {
      if i > |verb| { assert n[i] == object_[i - |verb| - 1] == Lower(object_)[i - |verb| - 1]; }
    }
  }

  lemma ObjectIsLower(segs: seq<string>, verb: string, body: string)
    ensures Lower(Object(segs, verb, body)) == Object(segs, verb, body)
  {
    hide NearEntity, Qualifier, EntityOf, Find;
    var e, q := NearEntity(segs), Qualifier(segs);
    assert Lower("unknown") == "unknown";
    if e != "" {
      var k :| 0 <= k < |segs| && EntityOf(segs[k]) == e;
      EntityIsLower(segs[k]);
    }
    if q != "" {
      var k :| 0 <= k < |segs| && EntityOf(segs[k]) == q;
      EntityIsLower(segs[k]);
      LowerTail(q);
    }
    ActionIsLower(body);
  }

  lemma LowerTail(q: string)
    requires Lower(q) == q
    ensures Lower(q + "_audit") == q + "_audit"
  {
    var o := q + "_audit";
    forall i | 0 <= i < |o| ensures LowerChar(o[i]) == o[i] {
      if i < |q| { assert o[i] == q[i] == Lower(q)[i]; }
    }
  }

  lemma ActionIsLower(body: string)
    ensures Lower(BodyAction(body)) == BodyAction(body)
  {
    hide Find;
    assert Lower("") == "";
  }

  lemma StepExactly(step: Step, e: CleanEvent, q: Request)
    requires step != [] && forall i :: 0 <= i < |step| ==> Exact(step[i])
    requires e.actionNorm == NormFromUri(q.uri, q.method_, q.body)
    ensures StepHit(step, e) <==> e.actionNorm in step
  {
    hide NormFromUri, StepHit, Plain;
    NormIsLower(q);
    assert HasDotted(step) by { assert '.' in step[0]; }
    StrictStepIsEquality(step, e);
    forall i | 0 <= i < |step| ensures Lower(step[i]) == step[i] {
      LowerCaseIsLower(step[i]);
    }
  }

  lemma RuleSteps(e: CleanEvent, q: Request)
    requires e.actionNorm == NormFromUri(q.uri, q.method_, q.body)
    ensures StepHit(BACKUP_RULE.sequence[0], e) <==> Performs(q, "delete", "backup")
    ensures StepHit(BACKUP_RULE.sequence[1], e) <==> Performs(q, "unmount", "volume") || Performs(q, "detach", "volume")
    ensures StepHit(BACKUP_RULE.sequence[2], e) <==> Performs(q, "delete", "snapshot")
  {
    hide Does, Names, Segments, StepHit, NormFromUri;
    StepNames();
    ExactDeletions();
    ExactUnmount();
    ExactDetach();
    hide Exact;
    forall i | 0 <= i < 3 ensures StepHit(BACKUP_RULE.sequence[i], e) <==> e.actionNorm in BACKUP_RULE.sequence[i] {
      StepExactly(BACKUP_RULE.sequence[i], e, q);
    }
    RequestExactly(q.uri, q.method_, q.body, "delete", "backup");
    RequestExactly(q.uri, q.method_, q.body, "unmount", "volume");
    RequestExactly(q.uri, q.method_, q.body, "detach", "volume");
    RequestExactly(q.uri, q.method_, q.body, "delete", "snapshot");
  }

  predicate Exact(word: string) {
    '.' in word && Plain(word) && LowerCase(word)
  }

  lemma ExactDeletions()
    ensures Exact("delete.backup") && Exact("delete.snapshot")
  {
    assert "delete.backup"[6] == '.' && "delete.snapshot"[6] == '.';
  }

  lemma ExactUnmount()
    ensures Exact("unmount.volume")
  {
    assert "unmount.volume"[7] == '.';
  }

  lemma ExactDetach()
    ensures Exact("detach.volume")
  {
    assert "detach.volume"[6] == '.';
  }

  lemma StepNames()
    ensures BACKUP_RULE.sequence == [["delete" + "." + "backup"], ["unmount" + "." + "volume", "detach" + "." + "volume"], ["delete" + "." + "snapshot"]]
  {
    assert "delete" + "." + "backup" == "delete.backup" && "unmount" + "." + "volume" == "unmount.volume";
    assert "detach" + "." + "volume" == "detach.volume" && "delete" + "." + "snapshot" == "delete.snapshot";
  }

  /** Three requests in a row, others between them: a backup deleted, a volume unmounted or detached, a snapshot deleted. */
  ghost predicate Destroys(requests: seq<Request>, i: int, j: int, k: int) {
    && 0 <= i < j < k < |requests| && Performs(requests[i], "delete", "backup")
    && (Performs(requests[j], "unmount", "volume") || Performs(requests[j], "detach", "volume"))
    && Performs(requests[k], "delete", "snapshot")
  }

  /** Requests complete the rule exactly when three of them destroy a backup in this way. */
  lemma BackupAlarmExactly(events: seq<CleanEvent>, requests: seq<Request>)
    requires Carry(events, requests)
    ensures M.Occurs(BACKUP_RULE.sequence, events, StepHit) <==> exists i, j, k :: Destroys(requests, i, j, k)
  {
    hide StepHit, NormFromUri, Performs;
    var steps := BACKUP_RULE.sequence;
    if M.Occurs(steps, events, StepHit) {
      var f :| M.Embeds(steps, events, StepHit, f);
      EmbedsDestroys(events, requests, f);
      assert Destroys(requests, f[0], f[1], f[2]);
    }
    if exists i, j, k :: Destroys(requests, i, j, k) {
      var i: nat, j: nat, k: nat :| Destroys(requests, i, j, k);
      EmbedsDestroys(events, requests, [i, j, k]);
    }
  }

  lemma EmbedsDestroys(events: seq<CleanEvent>, requests: seq<Request>, f: seq<nat>)
    requires Carry(events, requests) && |f| == 3
    ensures M.Embeds(BACKUP_RULE.sequence, events, StepHit, f) <==> Destroys(requests, f[0], f[1], f[2])
  {
    hide StepHit, NormFromUri, Performs;
    if f[0] < |events| && f[1] < |events| && f[2] < |events| {
      RuleSteps(events[f[0]], requests[f[0]]);
      RuleSteps(events[f[1]], requests[f[1]]);
      RuleSteps(events[f[2]], requests[f[2]]);
    }
  }
}
