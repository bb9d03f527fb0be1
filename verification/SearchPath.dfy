/** Unqualified names through a search path with entries the model cannot search, and
    the collation catalogue that uses it. */
module SearchPath {
  import opened Collections
  import opened IndexDefinitions

  const SYSTEM_CATALOG_SCHEMA: string := "pg_catalog"

  datatype SearchPathEntry = Schema(name: string) | Unresolved(written: Option<string>)

  predicate NamesSystemCatalog(path: seq<SearchPathEntry>) {
    Schema(SYSTEM_CATALOG_SCHEMA) in path
  }

  /** Scan the path; a hit behind an unsearchable entry is not certain. */
  method ResolveUnqualified<T>(path: seq<SearchPathEntry>, lookup: string -> Option<T>) returns (r: Option<T>)
    ensures r == Resolved(path, lookup)
  {
    if !NamesSystemCatalog(path) && lookup(SYSTEM_CATALOG_SCHEMA).Some? {
      return lookup(SYSTEM_CATALOG_SCHEMA);
    }
    var shadowed := false;
    for i := 0 to |path|
      invariant Scanned(path, lookup, false) == Scanned(path[i..], lookup, shadowed)
    {
      match path[i] {
        case Unresolved(_) =>
          shadowed := true;
        case Schema(schema) =>
          var found := lookup(schema);
          if found.Some? {
            return if shadowed then None else found;
          }
      }
    }
    r := None;
  }

  function Scanned<T>(path: seq<SearchPathEntry>, lookup: string -> Option<T>, shadowed: bool): Option<T> {
    if path == [] then None
    else match path[0]
         case Unresolved(_) => Scanned(path[1..], lookup, true)
         case Schema(schema) =>
           if lookup(schema).Some? then (if shadowed then None else lookup(schema))
           else Scanned(path[1..], lookup, shadowed)
  }

  function Resolved<T>(path: seq<SearchPathEntry>, lookup: string -> Option<T>): Option<T> {
    if !NamesSystemCatalog(path) && lookup(SYSTEM_CATALOG_SCHEMA).Some? then lookup(SYSTEM_CATALOG_SCHEMA)
    else Scanned(path, lookup, false)
  }

  // ------------------------------------------------- what the server may find

  /** How each unsearchable entry turns out: what its schema holds under the name, or
      nothing, whether because it lacks the object or does not exist. */
  type Contents<T> = seq<Option<T>>

  /** The server's answer: first hit, with every entry known. */
  function FirstHit<T>(path: seq<SearchPathEntry>, lookup: string -> Option<T>, contents: Contents<T>): Option<T>
    requires |contents| == |path|
  {
    if path == [] then None
    else
      var here := match path[0] case Schema(schema) => lookup(schema) case Unresolved(_) => contents[0];
      if here.Some? then here else FirstHit(path[1..], lookup, contents[1..])
  }

  function ServerAnswer<T>(path: seq<SearchPathEntry>, lookup: string -> Option<T>, contents: Contents<T>): Option<T>
    requires |contents| == |path|
  {
    if !NamesSystemCatalog(path) && lookup(SYSTEM_CATALOG_SCHEMA).Some? then lookup(SYSTEM_CATALOG_SCHEMA)
    else FirstHit(path, lookup, contents)
  }

  lemma {:induction false} UnshadowedScanIsCertain<T>(path: seq<SearchPathEntry>, lookup: string -> Option<T>, contents: Contents<T>)
    requires |contents| == |path| && Scanned(path, lookup, false).Some?
    ensures FirstHit(path, lookup, contents) == Scanned(path, lookup, false)
  {
    match path[0] {
      case Unresolved(_) => ShadowedScanFindsNothing(path[1..], lookup);
      case Schema(schema) =>
        if lookup(schema).None? {
          UnshadowedScanIsCertain(path[1..], lookup, contents[1..]);
        }
    }
  }

  lemma {:induction false} ShadowedScanFindsNothing<T>(path: seq<SearchPathEntry>, lookup: string -> Option<T>)
    ensures Scanned(path, lookup, true).None?
  {
    if path != [] {
      ShadowedScanFindsNothing(path[1..], lookup);
    }
  }

  /** An answer is the server's answer however the unsearchable entries turn out. */
  lemma ResolutionIsCertain<T>(path: seq<SearchPathEntry>, lookup: string -> Option<T>, contents: Contents<T>)
    requires |contents| == |path| && Resolved(path, lookup).Some?
    ensures ServerAnswer(path, lookup, contents) == Resolved(path, lookup)
  {
    if NamesSystemCatalog(path) || lookup(SYSTEM_CATALOG_SCHEMA).None? {
      UnshadowedScanIsCertain(path, lookup, contents);
    }
  }

  /** Every entry empty: only searched schemas answer. */
  function AllAbsent<T>(n: nat): Contents<T> {
    seq(n, i => None)
  }

  /** Every unsearchable entry holds `x`. */
  function AllHold<T>(n: nat, x: T): Contents<T> {
    seq(n, i => Some(x))
  }

  /** No searched schema has the name, or an unsearchable entry stands before the first that does. */
  predicate Open<T>(path: seq<SearchPathEntry>, lookup: string -> Option<T>) {
    path == [] ||
    match path[0]
    case Unresolved(_) => true
    case Schema(schema) => lookup(schema).None? && Open(path[1..], lookup)
  }

  lemma {:induction false} NoAnswerMeansOpen<T>(path: seq<SearchPathEntry>, lookup: string -> Option<T>)
    ensures Scanned(path, lookup, false).None? <==> Open(path, lookup)
  {
    if path != [] {
      match path[0] {
        case Unresolved(_) => ShadowedScanFindsNothing(path[1..], lookup);
        case Schema(schema) => NoAnswerMeansOpen(path[1..], lookup);
      }
    }
  }

  lemma {:induction false} OpenAnswerVaries<T>(path: seq<SearchPathEntry>, lookup: string -> Option<T>, x: T)
    requires Open(path, lookup)
    ensures FirstHit(path, lookup, AllHold(|path|, x)) ==
            if exists e :: e in path && e.Unresolved? then Some(x) else None
  {
    if path != [] {
      assert AllHold(|path|, x)[1..] == AllHold(|path| - 1, x);
      match path[0] {
        case Unresolved(_) => assert path[0] in path;
        case Schema(schema) =>
          OpenAnswerVaries(path[1..], lookup, x);
          assert path == [path[0]] + path[1..];
      }
    }
  }

  /** No answer is given exactly when the name is nowhere to be searched, or when the
      server would answer differently depending on what unsearchable entries hold. */
  lemma NoAnswerIsJustified<T>(path: seq<SearchPathEntry>, lookup: string -> Option<T>, x: T)
    requires ServerAnswer(path, lookup, AllAbsent(|path|)) != Some(x)
    ensures Resolved(path, lookup).None? <==>
            || (forall contents: Contents<T> :: |contents| == |path| ==> ServerAnswer(path, lookup, contents).None?)
            || ServerAnswer(path, lookup, AllHold(|path|, x)) != ServerAnswer(path, lookup, AllAbsent(|path|))
  {
    if Resolved(path, lookup).Some? {
      ResolutionIsCertain(path, lookup, AllHold(|path|, x));
      ResolutionIsCertain(path, lookup, AllAbsent(|path|));
      assert |AllAbsent<T>(|path|)| == |path|;
    } else {
      NoAnswerMeansOpen(path, lookup);
      OpenAnswerVaries(path, lookup, x);
      if !exists e :: e in path && e.Unresolved? {
        forall contents: Contents<T> | |contents| == |path| ensures ServerAnswer(path, lookup, contents).None? {
          SearchablePathIsDecided(path, lookup, contents);
        }
      }
    }
  }

  lemma {:induction false} SearchablePathIsDecided<T>(path: seq<SearchPathEntry>, lookup: string -> Option<T>, contents: Contents<T>)
    requires |contents| == |path| && Open(path, lookup) && forall e :: e in path ==> e.Schema?
    ensures FirstHit(path, lookup, contents).None?
  {
    if path != [] {
      assert path[0] in path;
      SearchablePathIsDecided(path[1..], lookup, contents[1..]);
    }
  }

  // ------------------------------------------------- collations

  datatype CollationCatalogue = CollationCatalogue(entries: set<ResolvedName>)

  predicate IsBuiltin(schema: string, name: string) {
    schema == SYSTEM_CATALOG_SCHEMA && name in {"C", "POSIX", "default"}
  }

  function Lookup(c: CollationCatalogue, schema: string, name: string): Option<ResolvedName> {
    var identity := ResolvedName(schema, name);
    if identity in c.entries || IsBuiltin(schema, name) then Some(identity) else None
  }

  predicate Has(c: CollationCatalogue, schema: string, name: string) {
    (exists e :: e in c.entries && e.schema == schema && e.name == name) || IsBuiltin(schema, name)
  }

  function ResolveCollation(c: CollationCatalogue, written: WrittenName, path: seq<SearchPathEntry>): Option<ResolvedName> {
    match written.schema
    case Some(schema) => Lookup(c, schema, written.name)
    case None => Resolved(path, schema => Lookup(c, schema, written.name))
  }

  function Renamed(schema: string, old_: string, new_: string): string {
    if schema == old_ then new_ else schema
  }

  function RenamedName(n: ResolvedName, old_: string, new_: string): ResolvedName {
    n.(schema := Renamed(n.schema, old_, new_))
  }

  function RemapSchema(c: CollationCatalogue, old_: string, new_: string): CollationCatalogue {
    CollationCatalogue(set e | e in c.entries :: RenamedName(e, old_, new_))
  }

  function RenamedEntry(e: SearchPathEntry, old_: string, new_: string): SearchPathEntry {
    match e
    case Schema(name) => Schema(Renamed(name, old_, new_))
    case Unresolved(written) => Unresolved(if written.Some? then Some(Renamed(written.value, old_, new_)) else None)
  }

  function RenamedPath(path: seq<SearchPathEntry>, old_: string, new_: string): seq<SearchPathEntry> {
    seq(|path|, i requires 0 <= i < |path| => RenamedEntry(path[i], old_, new_))
  }

  function RenamedAnswer(a: Option<ResolvedName>, old_: string, new_: string): Option<ResolvedName> {
    if a.Some? then Some(RenamedName(a.value, old_, new_)) else None
  }

  /** `new` is a name nothing mentions yet. */
  predicate UnusedSchema(c: CollationCatalogue, path: seq<SearchPathEntry>, new_: string) {
    (forall e :: e in c.entries ==> e.schema != new_) && Schema(new_) !in path
  }

  lemma LookupAfterRename(c: CollationCatalogue, old_: string, new_: string, schema: string, name: string)
    requires old_ != SYSTEM_CATALOG_SCHEMA && new_ != SYSTEM_CATALOG_SCHEMA && schema != new_
    requires forall e :: e in c.entries ==> e.schema != new_
    ensures Lookup(RemapSchema(c, old_, new_), Renamed(schema, old_, new_), name) ==
            RenamedAnswer(Lookup(c, schema, name), old_, new_)
  {
    var identity := ResolvedName(schema, name);
    if identity in c.entries {
      assert RenamedName(identity, old_, new_) in RemapSchema(c, old_, new_).entries;
    }
    if RenamedName(identity, old_, new_) in RemapSchema(c, old_, new_).entries {
      var e :| e in c.entries && RenamedName(e, old_, new_) == RenamedName(identity, old_, new_);
      assert e == identity;
    }
  }

  lemma {:induction false} ScanAfterRename(c: CollationCatalogue, old_: string, new_: string, name: string,
                                           path: seq<SearchPathEntry>, shadowed: bool)
    requires old_ != SYSTEM_CATALOG_SCHEMA && new_ != SYSTEM_CATALOG_SCHEMA && UnusedSchema(c, path, new_)
    ensures Scanned(RenamedPath(path, old_, new_), schema => Lookup(RemapSchema(c, old_, new_), schema, name), shadowed) ==
            RenamedAnswer(Scanned(path, schema => Lookup(c, schema, name), shadowed), old_, new_)
  {
    if path != [] {
      assert RenamedPath(path, old_, new_)[1..] == RenamedPath(path[1..], old_, new_);
      match path[0] {
        case Unresolved(_) =>
          ScanAfterRename(c, old_, new_, name, path[1..], true);
        case Schema(schema) =>
          LookupAfterRename(c, old_, new_, schema, name);
          ScanAfterRename(c, old_, new_, name, path[1..], shadowed);
      }
    }
  }

  /** Renaming a schema to an unused name commutes with resolving any written collation. */
  lemma CollationRenameCommutes(c: CollationCatalogue, old_: string, new_: string, written: WrittenName,
                                path: seq<SearchPathEntry>)
    requires old_ != SYSTEM_CATALOG_SCHEMA && new_ != SYSTEM_CATALOG_SCHEMA && UnusedSchema(c, path, new_)
    requires written.schema != Some(new_)
    ensures ResolveCollation(RemapSchema(c, old_, new_),
                             written.(schema := if written.schema.Some? then Some(Renamed(written.schema.value, old_, new_)) else None),
                             RenamedPath(path, old_, new_)) ==
            RenamedAnswer(ResolveCollation(c, written, path), old_, new_)
  {
    match written.schema {
      case Some(schema) => LookupAfterRename(c, old_, new_, schema, written.name);
      case None =>
        LookupAfterRename(c, old_, new_, SYSTEM_CATALOG_SCHEMA, written.name);
        ScanAfterRename(c, old_, new_, written.name, path, false);
        SystemCatalogStaysNamed(path, old_, new_);
    }
  }

  lemma SystemCatalogStaysNamed(path: seq<SearchPathEntry>, old_: string, new_: string)
    requires old_ != SYSTEM_CATALOG_SCHEMA && new_ != SYSTEM_CATALOG_SCHEMA
    ensures NamesSystemCatalog(RenamedPath(path, old_, new_)) <==> NamesSystemCatalog(path)
  {
    if NamesSystemCatalog(path) {
      var i :| 0 <= i < |path| && path[i] == Schema(SYSTEM_CATALOG_SCHEMA);
      assert RenamedPath(path, old_, new_)[i] == Schema(SYSTEM_CATALOG_SCHEMA);
    }
    if NamesSystemCatalog(RenamedPath(path, old_, new_)) {
      var i :| 0 <= i < |path| && RenamedPath(path, old_, new_)[i] == Schema(SYSTEM_CATALOG_SCHEMA);
      assert path[i] == Schema(SYSTEM_CATALOG_SCHEMA);
    }
  }

  /** Membership and lookup are the same question. */
  lemma HasMeansLookup(c: CollationCatalogue, schema: string, name: string)
    ensures Has(c, schema, name) <==> Lookup(c, schema, name).Some?
  {
  }

  // ------------------------------------------------- position by position

  /** Without a place of its own on the path, the system catalog answers first. */
  lemma CatalogComesFirst<T>(path: seq<SearchPathEntry>, lookup: string -> Option<T>)
    requires (forall i :: 0 <= i < |path| ==> path[i] != Schema("pg_catalog")) && lookup("pg_catalog").Some?
    ensures Resolved(path, lookup) == lookup("pg_catalog")
  {
    assert Schema("pg_catalog") !in path;
  }

  /** Otherwise the first searched schema that has the name answers, wherever it stands, the
      system catalog included, when no unsearchable entry stands before it. */
  lemma FirstSearchedSchemaAnswers<T>(path: seq<SearchPathEntry>, lookup: string -> Option<T>, n: nat, schema: string)
    requires n < |path| && path[n] == Schema(schema) && lookup(schema).Some?
    requires forall i :: 0 <= i < n ==> path[i].Schema? && lookup(path[i].name).None?
    requires (exists i :: 0 <= i < |path| && path[i] == Schema("pg_catalog")) || lookup("pg_catalog").None?
    ensures Resolved(path, lookup) == lookup(schema)
  {
    if i :| 0 <= i < |path| && path[i] == Schema("pg_catalog") {
      assert NamesSystemCatalog(path);
    }
    ScanFindsFirst(path, lookup, n, schema);
  }

  lemma {:induction false} ScanFindsFirst<T>(path: seq<SearchPathEntry>, lookup: string -> Option<T>, n: nat, schema: string)
    requires n < |path| && path[n] == Schema(schema) && lookup(schema).Some?
    requires forall i :: 0 <= i < n ==> path[i].Schema? && lookup(path[i].name).None?
    ensures Scanned(path, lookup, false) == lookup(schema)
  {
    if n > 0 {
      ScanFindsFirst(path[1..], lookup, n - 1, schema);
    }
  }

  /** Three collations exist in the system catalog whatever was loaded, and only there. */
  lemma BuiltinCollations(schema: string, name: string)
    ensures Lookup(CollationCatalogue({}), schema, name).Some? <==>
            schema == "pg_catalog" && (name == "C" || name == "POSIX" || name == "default")
  {
  }

  /** A renamed schema takes exactly its own collations along. */
  lemma CollationsMove(c: CollationCatalogue, old_: string, new_: string, schema: string, name: string)
    requires old_ != new_
    ensures ResolvedName(schema, name) in RemapSchema(c, old_, new_).entries <==>
            || (schema == new_ && ResolvedName(old_, name) in c.entries)
            || (schema != old_ && ResolvedName(schema, name) in c.entries)
  {
    if ResolvedName(schema, name) in RemapSchema(c, old_, new_).entries {
      var e :| e in c.entries && RenamedName(e, old_, new_) == ResolvedName(schema, name);
      assert e == ResolvedName(e.schema, name);
    }
    if schema == new_ && ResolvedName(old_, name) in c.entries {
      assert RenamedName(ResolvedName(old_, name), old_, new_) == ResolvedName(new_, name);
    }
    if schema != old_ && ResolvedName(schema, name) in c.entries {
      assert RenamedName(ResolvedName(schema, name), old_, new_) == ResolvedName(schema, name);
    }
  }
}
