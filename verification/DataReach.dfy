/**
 Which reads a write reaches, said by the paths of the two alone (surfaces/webui/src/api/client.ts, `readDataScopes`
 and `writeInvalidationScopes`): the scopes in between do not occur in these statements.
 */
module DataReach {
  import opened DataScopes
  import opened ReadCoherence
  import opened ReadTheorems

  // ----- Kinds of reads and writes -----

  /** The path itself or anything below it. */
  predicate Within(suffix: string, path: string) {
    suffix == path || StartsWith(suffix, path + "/")
  }

  predicate OfExecution(path: string) {
    StartsWith(path, "/api/runtime/executions/")
  }

  /** A session's read of its messages or their index. */
  predicate TranscriptRead(path: string, suffix: string) {
    !OfExecution(path) && (Within(suffix, "/messages") || suffix == "/history-index")
  }

  predicate ExecutionRead(path: string, suffix: string) {
    || OfExecution(path)
    || Within(suffix, "/execution") || Within(suffix, "/evidence") || Within(suffix, "/inputs")
    || Within(suffix, "/turns") || suffix == "/cancel" || suffix == "/compact"
  }

  predicate ResourceRead(path: string, suffix: string) {
    !OfExecution(path) && Within(suffix, "/attachments")
  }

  predicate OtherRead(path: string, suffix: string) {
    !TranscriptRead(path, suffix) && !ExecutionRead(path, suffix) && !ResourceRead(path, suffix)
  }

  /** The list of sessions and the search in it. */
  predicate CatalogRead(path: string) {
    path == "/api/sessions" || StartsWith(path, "/api/sessions/search")
  }

  predicate SessionWrite(suffix: string) {
    suffix == "" || suffix == "/"
  }

  predicate InputWrite(suffix: string) {
    Within(suffix, "/inputs") || Within(suffix, "/turns") || suffix == "/cancel" || StartsWith(suffix, "/context/")
  }

  /** Attaching to a session or detaching, and acquiring or releasing its lease, change nothing a read shows. */
  ghost predicate NeutralWrite(path: string) {
    || path == "/api/runtime/session-leases/acquire" || path == "/api/runtime/session-leases/release"
    || exists id: string :: id != "" && '/' !in id && IsAttachOrDetachOf(path, id)
  }

  predicate IsAttachOrDetachOf(path: string, id: string) {
    path == "/api/sessions/" + id + "/attach" || path == "/api/sessions/" + id + "/detach"
  }

  /** Which reads of its own session a write to a session reaches. */
  predicate ReachesRead(writePath: string, write: string, path: string, read: string) {
    if SessionWrite(write) then true
    else if Within(write, "/messages") then TranscriptRead(path, read) || ExecutionRead(path, read)
    else if write == "/branch" then false
    else if write == "/compact" then TranscriptRead(path, read) || OtherRead(path, read)
    else if Within(write, "/attachments") then ResourceRead(path, read)
    else if InputWrite(write) || ExecutionRead(writePath, write) then ExecutionRead(path, read)
    else if TranscriptRead(writePath, write) then TranscriptRead(path, read)
    else OtherRead(path, read)
  }

  /** Which writes to a session reach the list of sessions. */
  predicate ReachesCatalog(write: string) {
    SessionWrite(write) || Within(write, "/messages") || write == "/branch"
  }

  /** The scopes of a write match those of a read. */
  ghost predicate Reaches(writePath: string, write: string, writeSession: Session, path: string, read: string,
                          session: Session)
  {
    AnyScopeMatches(WriteInvalidationScopes(writePath, write, writeSession),
                    Elements(ReadDataScopes(path, read, session)))
  }

  // ----- Paths -----

  lemma WithinIsUnderSegment(suffix: string, path: string)
    ensures Within(suffix, path) <==> UnderSegment(suffix, path)
  {
    if StartsWith(suffix, path) && |suffix| > |path| {
      assert suffix[..|path| + 1] == path + [suffix[|path|]];
    }
    if StartsWith(suffix, path + "/") {
      assert suffix[..|path|] == (path + "/")[..|path|] == path && suffix[|path|] == (path + "/")[|path|];
    }
  }

  lemma WithinOne(suffix: string, path: string)
    ensures UnderAny(suffix, {path}) <==> Within(suffix, path)
  {
    WithinIsUnderSegment(suffix, path);
    assert path in {path};
  }

  lemma WithinTwo(suffix: string, a: string, b: string)
    ensures UnderAny(suffix, {a, b}) <==> Within(suffix, a) || Within(suffix, b)
  {
    WithinIsUnderSegment(suffix, a);
    WithinIsUnderSegment(suffix, b);
    assert a in {a, b} && b in {a, b};
  }

  lemma WithinFour(suffix: string, a: string, b: string, c: string, d: string)
    ensures UnderAny(suffix, {a, b, c, d}) <==>
              Within(suffix, a) || Within(suffix, b) || Within(suffix, c) || Within(suffix, d)
  {
    WithinIsUnderSegment(suffix, a);
    WithinIsUnderSegment(suffix, b);
    WithinIsUnderSegment(suffix, c);
    WithinIsUnderSegment(suffix, d);
    var all := {a, b, c, d};
    assert a in all && b in all && c in all && d in all;
  }

  // ----- Kinds are apart -----

  lemma SecondChar(suffix: string, path: string)
    requires Within(suffix, path) && |path| > 1
    ensures |suffix| > 1 && suffix[1] == path[1]
  {
    if suffix != path { assert (path + "/")[1] == path[1]; }
  }

  /** A transcript read starts with another letter than an execution read, and so on. */
  lemma KindsAreApart(path: string, read: string)
    ensures !(TranscriptRead(path, read) && ExecutionRead(path, read))
    ensures !(TranscriptRead(path, read) && ResourceRead(path, read))
    ensures !(ExecutionRead(path, read) && ResourceRead(path, read))
  {
    if !OfExecution(path) {
      if TranscriptRead(path, read) { assert read[1] in "mh" by { TranscriptLetter(path, read); } }
      if ExecutionRead(path, read) { assert read[1] in "eitc" by { ExecutionLetter(path, read); } }
      if ResourceRead(path, read) { assert read[1] == 'a' by { SecondChar(read, "/attachments"); } }
    }
  }

  lemma TranscriptLetter(path: string, read: string)
    requires TranscriptRead(path, read)
    ensures |read| > 1 && read[1] in "mh"
  {
    if Within(read, "/messages") { SecondChar(read, "/messages"); }
  }

  lemma ExecutionLetter(path: string, read: string)
    requires ExecutionRead(path, read) && !OfExecution(path)
    ensures |read| > 1 && read[1] in "eitc"
  {
    if Within(read, "/execution") { SecondChar(read, "/execution"); }
    else if Within(read, "/evidence") { SecondChar(read, "/evidence"); }
    else if Within(read, "/inputs") { SecondChar(read, "/inputs"); }
    else if Within(read, "/turns") { SecondChar(read, "/turns"); }
  }

  // ----- Scopes of the kinds -----

  function Facet(path: string, read: string): string {
    if TranscriptRead(path, read) then "transcript"
    else if ExecutionRead(path, read) then "execution"
    else if ResourceRead(path, read) then "resources"
    else "metadata"
  }

  lemma FacetIsScope(path: string, read: string, session: Session)
    ensures SessionDataScope(path, read, session) == SessionScope(session, Facet(path, read))
  {
    WithinOne(read, "/messages");
    WithinOne(read, "/attachments");
    WithinFour(read, "/execution", "/evidence", "/inputs", "/turns");
  }

  lemma FacetTellsKind(path: string, read: string)
    ensures Facet(path, read) in FACETS
    ensures Facet(path, read) == "transcript" <==> TranscriptRead(path, read)
    ensures Facet(path, read) == "execution" <==> ExecutionRead(path, read)
    ensures Facet(path, read) == "resources" <==> ResourceRead(path, read)
    ensures Facet(path, read) == "metadata" <==> OtherRead(path, read)
  {
    KindsAreApart(path, read);
  }

  lemma FacetsDiffer(session: Session, f: string, g: string)
    ensures SessionScope(session, f) == SessionScope(session, g) <==> f == g
  {
    var head := "session:" + session + ":";
    assert SessionScope(session, f)[|head|..] == f && SessionScope(session, g)[|head|..] == g;
  }

  // ----- Which scopes match -----

  /** Some scope of the read is the written one, or below it. */
  ghost predicate Hit(w: Scope, scopes: set<Scope>) {
    exists c :: c in scopes && DataScopeMatches(w, c)
  }

  lemma AnyHit(ws: seq<Scope>, scopes: set<Scope>)
    ensures AnyScopeMatches(ws, scopes) <==> exists w :: w in ws && Hit(w, scopes)
  {
    if w :| w in ws && Hit(w, scopes) {
      var i :| 0 <= i < |ws| && ws[i] == w;
      var c :| c in scopes && DataScopeMatches(w, c);
      OneMatchIsEnough(ws, i, c, scopes);
    }
    if AnyScopeMatches(ws, scopes) {
      var i, c :| 0 <= i < |ws| && c in scopes && DataScopeMatches(ws[i], c);
      assert Hit(ws[i], scopes);
    }
  }

  lemma FacetHits(session: Session, f: string, g: string)
    requires f in FACETS && g in FACETS
    ensures Hit(SessionScope(session, f), {"session:" + session, SessionScope(session, g)}) <==> f == g
  {
    FacetsDoNotNest(session, f, g);
    FacetsDiffer(session, f, g);
    assert SessionScope(session, g) in {"session:" + session, SessionScope(session, g)};
  }

  lemma SessionHits(session: Session, g: string)
    ensures Hit("session:" + session, {"session:" + session, SessionScope(session, g)})
  {
    assert "session:" + session in {"session:" + session, SessionScope(session, g)};
  }

  lemma CatalogHitsNoSession(session: Session, g: string)
    ensures !Hit("sessions:catalog", {"session:" + session, SessionScope(session, g)})
  {
    CatalogIsNoSessionScope(session, "");
    assert "session:" + session + "" == "session:" + session;
    CatalogIsNoSessionScope(session, ":" + g);
    assert "session:" + session + (":" + g) == SessionScope(session, g);
  }

  /** A write lists the session itself or one facet of it. */
  ghost predicate Lists(ws: seq<Scope>, session: Session, g: string) {
    "session:" + session in ws || SessionScope(session, g) in ws
  }

  lemma ListedFacetsMatch(ws: seq<Scope>, session: Session, g: string)
    requires g in FACETS && forall w :: w in ws ==> NamesSession(session, w)
    ensures AnyScopeMatches(ws, {"session:" + session, SessionScope(session, g)}) <==> Lists(ws, session, g)
  {
    var scopes := {"session:" + session, SessionScope(session, g)};
    AnyHit(ws, scopes);
    SessionHits(session, g);
    FacetHits(session, g, g);
    forall w | w in ws && Hit(w, scopes) ensures w == "session:" + session || w == SessionScope(session, g) {
      CatalogHitsNoSession(session, g);
      if IsFacet(session, w) {
        var f :| f in FACETS && w == SessionScope(session, f);
        FacetHits(session, f, g);
      }
    }
  }

  // ----- Writes that change nothing a read shows -----

  lemma AttachHasId(path: string)
    requires IsAttachOrDetach(path)
    ensures exists id: string :: id != "" && '/' !in id && IsAttachOrDetachOf(path, id)
  {
    var head := "/api/sessions/";
    var rest := path[|head|..];
    var n := SegmentLength(rest);
    FirstSegmentHasNoSlash(rest);
    assert path == head + rest && rest == rest[..n] + rest[n..];
    assert path == head + rest[..n] + rest[n..];
    assert IsAttachOrDetachOf(path, rest[..n]);
  }

  lemma IdMakesAttach(path: string, id: string)
    requires id != "" && '/' !in id && IsAttachOrDetachOf(path, id)
    ensures IsAttachOrDetach(path)
  {
    var head := "/api/sessions/";
    var end := if path == head + id + "/attach" then "/attach" else "/detach";
    assert path == head + (id + end);
    assert path[|head|..] == id + end;
    SegmentLengthOf(id, end);
    assert (id + end)[0] == id[0] && (id + end)[|id|..] == end;
  }

  lemma NeutralIff(path: string)
    ensures IsProjectionNeutralControlWrite(path) <==> NeutralWrite(path)
  {
    if IsAttachOrDetach(path) {
      AttachHasId(path);
    }
    forall id: string | id != "" && '/' !in id && IsAttachOrDetachOf(path, id) ensures IsAttachOrDetach(path) {
      IdMakesAttach(path, id);
    }
  }

  // ----- Writes of a session -----

  /** The facets a write lists, said by its path. */
  predicate WritesFacet(writePath: string, write: string, g: string) {
    if SessionWrite(write) then true
    else if Within(write, "/messages") then g == "transcript" || g == "execution"
    else if write == "/branch" then false
    else if write == "/compact" then g == "transcript" || g == "metadata"
    else if Within(write, "/attachments") then g == "resources"
    else if InputWrite(write) then g == "execution"
    else g == Facet(writePath, write)
  }

  lemma FacetIsNotTheSession(session: Session, f: string)
    ensures SessionScope(session, f) != "session:" + session && "sessions:catalog" != SessionScope(session, f)
    ensures "sessions:catalog" != "session:" + session
  {
    assert |SessionScope(session, f)| > |"session:" + session|;
    assert SessionScope(session, f)[7] == ':' && ("session:" + session)[7] == ':' && "sessions:catalog"[7] == 's';
  }

  lemma OneFacetLists(session: Session, f: string, g: string)
    ensures Lists([SessionScope(session, f)], session, g) <==> g == f
  {
    FacetIsNotTheSession(session, f);
    FacetsDiffer(session, f, g);
  }

  lemma TwoFacetsList(session: Session, e: string, f: string, g: string)
    ensures Lists([SessionScope(session, e), SessionScope(session, f)], session, g) <==> g == e || g == f
    ensures Lists([SessionScope(session, e), SessionScope(session, f), "sessions:catalog"], session, g)
       <==> g == e || g == f
  {
    FacetIsNotTheSession(session, e);
    FacetIsNotTheSession(session, f);
    FacetIsNotTheSession(session, g);
    FacetsDiffer(session, e, g);
    FacetsDiffer(session, f, g);
  }

  lemma WriteLists(path: string, write: string, session: Session, g: string)
    requires session != "" && !IsProjectionNeutralControlWrite(path)
    ensures Lists(WriteInvalidationScopes(path, write, session), session, g) <==> WritesFacet(path, write, g)
  {
    WithinOne(write, "/messages");
    WithinOne(write, "/attachments");
    WithinTwo(write, "/inputs", "/turns");
    if SessionWrite(write) {
    } else if Within(write, "/messages") {
      TwoFacetsList(session, "transcript", "execution", g);
    } else if write == "/branch" {
      FacetIsNotTheSession(session, g);
    } else if write == "/compact" {
      TwoFacetsList(session, "transcript", "metadata", g);
    } else if Within(write, "/attachments") {
      OneFacetLists(session, "resources", g);
    } else if InputWrite(write) {
      OneFacetLists(session, "execution", g);
    } else {
      FacetIsScope(path, write, session);
      OneFacetLists(session, Facet(path, write), g);
    }
  }

  lemma WritesFacetOfRead(writePath: string, write: string, path: string, read: string)
    ensures WritesFacet(writePath, write, Facet(path, read)) <==> ReachesRead(writePath, write, path, read)
  {
    FacetTellsKind(path, read);
    FacetTellsKind(writePath, write);
    KindsAreApart(writePath, write);
  }

  lemma ReadListed(path: string, read: string, session: Session)
    requires session != ""
    ensures Elements(ReadDataScopes(path, read, session))
         == {"session:" + session, SessionScope(session, Facet(path, read))}
  {
    FacetIsScope(path, read, session);
  }

  /**
   A write to a session reaches a read of it exactly when the paths say so: a message write the transcript and the
   execution, an attachment write the attachments, a write to the session itself everything, and so on.
   */
  lemma SessionWriteReachesIff(writePath: string, write: string, path: string, read: string, session: Session)
    requires session != ""
    ensures Reaches(writePath, write, session, path, read, session)
       <==> !NeutralWrite(writePath) && ReachesRead(writePath, write, path, read)
  {
    NeutralIff(writePath);
    ReadListed(path, read, session);
    if !NeutralWrite(writePath) {
      var ws, g := WriteInvalidationScopes(writePath, write, session), Facet(path, read);
      forall w | w in ws ensures NamesSession(session, w) { WriteScopesOfSession(writePath, write, session, w); }
      FacetTellsKind(path, read);
      ListedFacetsMatch(ws, session, g);
      WriteLists(writePath, write, session, g);
      WritesFacetOfRead(writePath, write, path, read);
    }
  }

  // ----- Reads and writes without a session -----

  lemma UnscopedList(path: string, read: string)
    ensures Elements(ReadDataScopes(path, read, ""))
         == {if CatalogRead(path) then "sessions:catalog" else "domain:" + Domain(path)}
  {
  }

  lemma OneHit(w: Scope, c: Scope)
    ensures Hit(w, {c}) <==> DataScopeMatches(w, c)
  {
    assert c in {c};
  }

  lemma WriteListsCatalog(path: string, write: string, session: Session)
    requires session != "" && !IsProjectionNeutralControlWrite(path)
    ensures "sessions:catalog" in WriteInvalidationScopes(path, write, session) <==> ReachesCatalog(write)
  {
    WithinOne(write, "/messages");
    FacetIsScope(path, write, session);
    FacetIsNotTheSession(session, Facet(path, write));
    FacetIsNotTheSession(session, "transcript");
    FacetIsNotTheSession(session, "execution");
    FacetIsNotTheSession(session, "metadata");
    FacetIsNotTheSession(session, "resources");
    BranchIsNoMessage(write);
  }

  lemma BranchIsNoMessage(write: string)
    ensures write == "/branch" ==> !Within(write, "/messages")
  {
    if Within(write, "/messages") { SecondChar(write, "/messages"); }
  }

  /** Of the reads without a session, a session's write reaches the list of sessions only, and by its own path. */
  lemma SessionWriteReachesUnscopedIff(writePath: string, write: string, session: Session, path: string, read: string)
    requires session != ""
    ensures Reaches(writePath, write, session, path, read, "")
       <==> !NeutralWrite(writePath) && ReachesCatalog(write) && CatalogRead(path)
  {
    NeutralIff(writePath);
    UnscopedList(path, read);
    if !NeutralWrite(writePath) {
      var ws := WriteInvalidationScopes(writePath, write, session);
      var c := if CatalogRead(path) then "sessions:catalog" else "domain:" + Domain(path);
      AnyHit(ws, {c});
      OneHit(c, c);
      forall w | w in ws && Hit(w, {c}) ensures w == c {
        WriteScopesOfSession(writePath, write, session, w);
        OneHit(w, c);
        UnscopedReadMatch(session, path, read, w, c);
      }
      if CatalogRead(path) {
        WriteListsCatalog(writePath, write, session);
      } else {
        DomainIsNoSessionScope(ws, writePath, write, session, c);
      }
    }
  }

  lemma DomainIsNoSessionScope(ws: seq<Scope>, path: string, write: string, session: Session, c: Scope)
    requires session != "" && ws == WriteInvalidationScopes(path, write, session) && c != "" && c[0] == 'd'
    ensures c !in ws
  {
    forall w | w in ws ensures w[0] == 's' { WriteScopesOfSession(path, write, session, w); }
  }

  /** A write without a session reaches none of a session's reads. */
  lemma UnscopedWriteReachesNoSession(writePath: string, write: string, path: string, read: string, session: Session)
    requires session != ""
    ensures !Reaches(writePath, write, "", path, read, session)
  {
    var ws, scopes := WriteInvalidationScopes(writePath, write, ""), Elements(ReadDataScopes(path, read, session));
    forall w, c | w in ws && c in scopes ensures !DataScopeMatches(w, c) {
      ReadScopesOfSession(path, read, session, c);
      UnscopedWritesMissSessions(writePath, write, session, w, c);
    }
  }

  /** It reaches the list of sessions from the path of that list, and otherwise its own domain and those below it. */
  lemma UnscopedWriteReachesIff(writePath: string, write: string, path: string, read: string)
    ensures Reaches(writePath, write, "", path, read, "")
       <==> !NeutralWrite(writePath)
            && if writePath == "/api/sessions" then CatalogRead(path)
               else !CatalogRead(path)
                    && (Domain(path) == Domain(writePath) || StartsWith(Domain(path), Domain(writePath) + ":"))
  {
    NeutralIff(writePath);
    UnscopedList(path, read);
    if !NeutralWrite(writePath) {
      var w := if writePath == "/api/sessions" then "sessions:catalog" else "domain:" + Domain(writePath);
      var c := if CatalogRead(path) then "sessions:catalog" else "domain:" + Domain(path);
      AnyHit([w], {c});
      OneHit(w, c);
      assert Hit(w, {c}) <==> AnyScopeMatches([w], {c}) by { assert w in [w]; }
      DomainsMatch(Domain(writePath), Domain(path));
    }
  }

  lemma DomainsMatch(written: string, viewed: string)
    ensures DataScopeMatches("domain:" + written, "domain:" + viewed)
       <==> viewed == written || StartsWith(viewed, written + ":")
    ensures !DataScopeMatches("sessions:catalog", "domain:" + viewed)
    ensures !DataScopeMatches("domain:" + written, "sessions:catalog")
  {
    assert ("domain:" + viewed)[0] == 'd' && ("domain:" + written)[0] == 'd' && "sessions:catalog"[0] == 's';
    assert ("domain:" + viewed)[7..] == viewed && ("domain:" + written)[7..] == written;
    assert ("domain:" + written) + ":" == "domain:" + (written + ":");
    if "domain:" + (written + ":") <= "domain:" + viewed { PrefixCancels("domain:", written + ":", viewed); }
    if StartsWith(viewed, written + ":") { HeadKeepsMatch("domain:", written, viewed); }
  }

  // ----- At run level -----

  /**
   What a read of a session is served after a write to the session that reaches it comes from a transport started
   after that write.
   */
  lemma ReachedReadsAreFresh(s: State, i: nat, j: nat, writePath: string, write: string, path: string, read: string,
                             session: Session)
    requires Reachable(s) && i < j < |s.log| && session != ""
    requires !NeutralWrite(writePath) && ReachesRead(writePath, write, path, read)
    requires s.log[i] == InvalidatedScopes(WriteInvalidationScopes(writePath, write, session))
    requires s.log[j].Served? && s.log[j].request.scopes == Elements(ReadDataScopes(path, read, session))
    ensures StartedBetween(s.log, s.log[j].data.origin, i, j)
  {
    SessionWriteReachesIff(writePath, write, path, read, session);
    assert !StartsWith(session, session + ":") by { assert |session + ":"| > |session|; }
    GeneratedScopesAreCoherent(s, i, j, writePath, write, session, path, read, session);
  }

  /** So does the list of sessions after a write to a session itself, to its messages, or that branches it. */
  lemma ReachedCatalogIsFresh(s: State, i: nat, j: nat, writePath: string, write: string, session: Session,
                              path: string, read: string)
    requires Reachable(s) && i < j < |s.log| && session != ""
    requires !NeutralWrite(writePath) && ReachesCatalog(write) && CatalogRead(path)
    requires s.log[i] == InvalidatedScopes(WriteInvalidationScopes(writePath, write, session))
    requires s.log[j].Served? && s.log[j].request.scopes == Elements(ReadDataScopes(path, read, ""))
    ensures StartedBetween(s.log, s.log[j].data.origin, i, j)
  {
    SessionWriteReachesUnscopedIff(writePath, write, session, path, read);
    assert !StartsWith("", session + ":") by { assert |session + ":"| > 0; }
    GeneratedScopesAreCoherent(s, i, j, writePath, write, session, path, read, "");
  }

  lemma BelowIsWithin(path: string, rest: string)
    requires rest == "" || rest[0] == '/'
    ensures Within(path + rest, path)
  {
    if rest == "" {
      assert path + rest == path;
    } else {
      assert (path + rest)[..|path| + 1] == path + "/";
    }
  }

  /** In particular: a transcript read after a message write. */
  lemma TranscriptAfterMessageIsFresh(s: State, i: nat, j: nat, writePath: string, rest: string, path: string,
                                      read: string, session: Session)
    requires Reachable(s) && i < j < |s.log| && session != "" && !NeutralWrite(writePath)
    requires (rest == "" || rest[0] == '/') && TranscriptRead(path, read)
    requires s.log[i] == InvalidatedScopes(WriteInvalidationScopes(writePath, "/messages" + rest, session))
    requires s.log[j].Served? && s.log[j].request.scopes == Elements(ReadDataScopes(path, read, session))
    ensures StartedBetween(s.log, s.log[j].data.origin, i, j)
  {
    BelowIsWithin("/messages", rest);
    ReachedReadsAreFresh(s, i, j, writePath, "/messages" + rest, path, read, session);
  }
}
