/**
 * NameIncrementHelper: the collision-free name a new or renamed entity receives
 * among its siblings, and the names of those siblings.
 */
module NameIncrement {
  import opened Wrappers
  import opened JavaLang
  import opened Entities

  // ---------------------------------------------------------------------------
  // getIncrementedName
  // ---------------------------------------------------------------------------

  /** Stem and extension: the name splits at its last '.' when that dot is not the first character. */
  function SplitName(name: string): (parts: (string, string))
    ensures parts.0 + parts.1 == name
    ensures (exists i :: 0 < i < |name| && name[i] == '.') ==>
              parts.1 != [] && parts.1[0] == '.' && forall j :: 0 < j < |parts.1| ==> parts.1[j] != '.'
    ensures !(exists i :: 0 < i < |name| && name[i] == '.') ==> parts == (name, "")
  {
    var dotIndex := LastIndexOf(name, '.');
    if dotIndex > 0 then (name[..dotIndex], name[dotIndex..]) else (name, "")
  }

  /** The k-th candidate: " (k)" inserted between stem and extension. */
  function Candidate(baseName: string, k: nat): string {
    var (stem, ext) := SplitName(baseName);
    stem + " (" + NatToString(k) + ")" + ext
  }

  /** Distinct counters give distinct candidates. */
  lemma CandidateInjective(baseName: string, a: nat, b: nat)
    ensures Candidate(baseName, a) == Candidate(baseName, b) ==> a == b
  {
    var (stem, ext) := SplitName(baseName);
    var da, db := NatToString(a), NatToString(b);
    var ca, cb := Candidate(baseName, a), Candidate(baseName, b);
    if ca == cb {
      assert ca == (stem + " (") + da + (")" + ext);
      assert cb == (stem + " (") + db + (")" + ext);
      var n := |stem| + 2;
      assert |da| == |db|;
      assert ca[n..n + |da|] == da;
      assert cb[n..n + |db|] == db;
      NatToStringInjective(a, b);
    }
  }

  /** A candidate is always longer than the name it was made from, so never equal to it. */
  lemma CandidateIsLonger(baseName: string, k: nat)
    ensures |Candidate(baseName, k)| >= |baseName| + 4
    ensures Candidate(baseName, k) != baseName
  {
  }

  /** The candidates with counters 1..n. */
  ghost function Candidates(baseName: string, n: nat): set<string> {
    if n == 0 then {} else Candidates(baseName, n - 1) + {Candidate(baseName, n)}
  }

  /** Each counter from 1 to n has its candidate among the first n. */
  lemma {:induction false} CandidatesContain(baseName: string, n: nat, j: nat)
    requires 1 <= j <= n
    ensures Candidate(baseName, j) in Candidates(baseName, n)
  {
    if j < n {
      CandidatesContain(baseName, n - 1, j);
    }
  }

  lemma {:induction false} CandidateNotEarlier(baseName: string, n: nat, m: nat)
    requires m < n
    ensures Candidate(baseName, n) !in Candidates(baseName, m)
  {
    if m > 0 {
      CandidateNotEarlier(baseName, n, m - 1);
      CandidateInjective(baseName, n, m);
    }
  }

  lemma {:induction false} BaseNotCandidate(baseName: string, n: nat)
    ensures baseName !in Candidates(baseName, n)
  {
    if n > 0 {
      BaseNotCandidate(baseName, n - 1);
      CandidateIsLonger(baseName, n);
    }
  }

  lemma {:induction false} CandidatesSize(baseName: string, n: nat)
    ensures |Candidates(baseName, n)| == n
    ensures forall j :: 1 <= j <= n ==> Candidate(baseName, j) in Candidates(baseName, n)
  {
    if n > 0 {
      CandidatesSize(baseName, n - 1);
      CandidateNotEarlier(baseName, n, n - 1);
    }
  }

  lemma {:induction false} CandidatesTaken(baseName: string, taken: set<string>, n: nat)
    requires forall j :: 1 <= j <= n ==> Candidate(baseName, j) in taken
    ensures Candidates(baseName, n) <= taken
  {
    if n > 0 {
      CandidatesTaken(baseName, taken, n - 1);
    }
  }

  lemma {:induction false} SubsetCardinality(a: set<string>, b: set<string>)
    requires a <= b
    ensures |a| <= |b|
  {
    if a != {} {
      var x :| x in a;
      SubsetCardinality(a - {x}, b - {x});
    }
  }

  /** Pigeonhole: when counters 1..n all collide, the set holds at least n names besides the base name. */
  lemma TakenCandidatesBound(baseName: string, taken: set<string>, n: nat)
    requires forall j :: 1 <= j <= n ==> Candidate(baseName, j) in taken
    ensures n <= |taken|
    ensures baseName in taken ==> n + 1 <= |taken|
  {
    CandidatesSize(baseName, n);
    CandidatesTaken(baseName, taken, n);
    var cs := Candidates(baseName, n);
    if baseName in taken {
      BaseNotCandidate(baseName, n);
      SubsetCardinality(cs + {baseName}, taken);
      assert |cs + {baseName}| == n + 1;
    }
    SubsetCardinality(cs, taken);
  }

  /** The least counter k0 >= k whose candidate is free, given that every counter below k collides. */
  function FirstFreeFrom(baseName: string, taken: set<string>, k: nat): (r: nat)
    requires 1 <= k
    requires forall j :: 1 <= j < k ==> Candidate(baseName, j) in taken
    ensures k <= r <= |taken| + 1
    ensures Candidate(baseName, r) !in taken
    ensures forall j :: 1 <= j < r ==> Candidate(baseName, j) in taken
    decreases |taken| + 1 - k
  {
    TakenCandidatesBound(baseName, taken, k - 1);
    if Candidate(baseName, k) !in taken then k
    else
      TakenCandidatesBound(baseName, taken, k);
      FirstFreeFrom(baseName, taken, k + 1)
  }

  /**
   * The name getIncrementedName returns: the base name when it is free, otherwise
   * the candidate with the smallest counter k >= 1 free in the set.
   */
  function IncrementedName(baseName: string, existingNames: set<string>): (r: string)
    ensures r !in existingNames
    ensures baseName !in existingNames ==> r == baseName
    ensures baseName in existingNames ==>
              exists k :: 1 <= k <= |existingNames| && r == Candidate(baseName, k) &&
                          forall j :: 1 <= j < k ==> Candidate(baseName, j) in existingNames
  {
    if baseName !in existingNames then baseName
    else
      var k := FirstFreeFrom(baseName, existingNames, 1);
      TakenCandidatesBound(baseName, existingNames, k - 1);
      Candidate(baseName, k)
  }

  /** The counter is determined: the least free one (used to pin IncrementedName down exactly). */
  lemma IncrementedNameIsLeastFree(baseName: string, existingNames: set<string>, k: nat)
    requires baseName in existingNames && 1 <= k
    requires Candidate(baseName, k) !in existingNames
    requires forall j :: 1 <= j < k ==> Candidate(baseName, j) in existingNames
    ensures IncrementedName(baseName, existingNames) == Candidate(baseName, k)
  {
    var r := FirstFreeFrom(baseName, existingNames, 1);
    assert r >= k;
    assert r <= k;
  }

  /** getIncrementedName on a possibly null name: a null name is never in the set and comes back null. */
  function IncrementedNameOrNull(baseName: Option<string>, existingNames: set<string>): (r: Option<string>)
    ensures r.None? <==> baseName.None?
    ensures r.Some? ==> r.value !in existingNames
    ensures baseName.Some? && baseName.value !in existingNames ==> r == baseName
  {
    if baseName.None? then None else Some(IncrementedName(baseName.value, existingNames))
  }

  /** getIncrementedName, with its do-while loop over the counter. */
  method GetIncrementedName(baseName: string, existingNames: set<string>) returns (newName: string)
    ensures newName == IncrementedName(baseName, existingNames)
  {
    if baseName !in existingNames {
      return baseName;
    }
    var counter: nat := 1;
    var dotIndex := LastIndexOf(baseName, '.');
    var namePart := if dotIndex > 0 then baseName[..dotIndex] else baseName;
    var extPart := if dotIndex > 0 then baseName[dotIndex..] else "";
    newName := namePart + " (" + NatToString(counter) + ")" + extPart;
    counter := counter + 1;
    while newName in existingNames
      invariant 2 <= counter
      invariant newName == Candidate(baseName, counter - 1)
      invariant forall j :: 1 <= j < counter - 1 ==> Candidate(baseName, j) in existingNames
      decreases |existingNames| + 2 - counter
    {
      TakenCandidatesBound(baseName, existingNames, counter - 1);
      newName := namePart + " (" + NatToString(counter) + ")" + extPart;
      counter := counter + 1;
    }
    IncrementedNameIsLeastFree(baseName, existingNames, counter - 1);
  }

  // ---------------------------------------------------------------------------
  // Properties of the resolved name
  // ---------------------------------------------------------------------------

  /** Resolving a name that is already taken makes it strictly longer, and never blank. */
  lemma ResolvedNameShape(baseName: string, existingNames: set<string>)
    ensures baseName in existingNames ==> |IncrementedName(baseName, existingNames)| >= |baseName| + 4
    ensures !IsBlank(baseName) ==> !IsBlank(IncrementedName(baseName, existingNames))
  {
    var r := IncrementedName(baseName, existingNames);
    if baseName in existingNames {
      var k :| 1 <= k <= |existingNames| && r == Candidate(baseName, k);
      CandidateIsLonger(baseName, k);
      var (stem, ext) := SplitName(baseName);
      assert r[|stem| + 1] == '(';
    }
  }

  /** The names present after n uploads of the same name into an initially empty folder. */
  ghost function NamesAfterUploads(baseName: string, n: nat): set<string> {
    if n == 0 then {}
    else
      var before := NamesAfterUploads(baseName, n - 1);
      before + {IncrementedName(baseName, before)}
  }

  /** After base, base (1), ..., base (n-1), the base is taken, base (n) is free and every earlier counter is taken. */
  lemma UploadedNamesShape(baseName: string, n: nat, names: set<string>)
    requires n >= 1 && names == {baseName} + Candidates(baseName, n - 1)
    ensures baseName in names
    ensures Candidate(baseName, n) !in names
    ensures forall j :: 1 <= j < n ==> Candidate(baseName, j) in names
  {
    CandidateNotEarlier(baseName, n, n - 1);
    CandidateIsLonger(baseName, n);
    forall j | 1 <= j < n
      ensures Candidate(baseName, j) in names
    {
      CandidatesContain(baseName, n - 1, j);
    }
  }

  /** The name the (n+1)-th upload receives when the first n received base, base (1), ..., base (n-1). */
  lemma NextUploadName(baseName: string, n: nat)
    requires n >= 1
    ensures IncrementedName(baseName, {baseName} + Candidates(baseName, n - 1)) == Candidate(baseName, n)
  {
    var names := {baseName} + Candidates(baseName, n - 1);
    UploadedNamesShape(baseName, n, names);
    IncrementedNameIsLeastFree(baseName, names, n);
  }

  /** Sequential collisions: after n >= 1 uploads of one name the folder holds base, base (1), ..., base (n-1). */
  lemma {:induction false} SequentialCollisions(baseName: string, n: nat)
    requires n >= 1
    ensures NamesAfterUploads(baseName, n) == {baseName} + Candidates(baseName, n - 1)
  {
    if n > 1 {
      SequentialCollisions(baseName, n - 1);
      NextUploadName(baseName, n - 1);
    }
  }

  // ---------------------------------------------------------------------------
  // collectSiblingNames
  // ---------------------------------------------------------------------------

  /** The objects collectSiblingNames accepts: folders and documents. */
  datatype Entity = FolderItem(folder: FolderRow) | DocumentItem(document: DocumentRow)

  function NameOf(e: Entity): string {
    match e
    case FolderItem(f) => f.name
    case DocumentItem(d) => d.name
  }

  /**
   * The per-entity test of collectSiblingNames. A folder counts when its parent id is
   * non-null and equals the argument and its id is non-null and differs from excludeId;
   * a document counts when its folder id equals the argument and its id differs from excludeId.
   */
  predicate IsSibling(e: Entity, parentOrFolderId: Option<string>, excludeId: Option<string>) {
    match e
    case FolderItem(f) =>
      f.parentId.Some? && f.parentId == parentOrFolderId && f.id.Some? && f.id != excludeId
    case DocumentItem(d) =>
      d.folderId.Some? && d.folderId == parentOrFolderId && d.id != excludeId
  }

  /** The test dereferences a document's folder id, and its id when the folder matches. */
  predicate NoNullDereference(e: Entity, parentOrFolderId: Option<string>) {
    e.DocumentItem? ==>
      e.document.folderId.Some? && (e.document.folderId == parentOrFolderId ==> e.document.id.Some?)
  }

  /** The names collectSiblingNames returns. */
  function SiblingNames(entities: set<Entity>, parentOrFolderId: Option<string>, excludeId: Option<string>): set<string> {
    set e | e in entities && IsSibling(e, parentOrFolderId, excludeId) :: NameOf(e)
  }

  /** collectSiblingNames, with its for-loop filling a HashSet. */
  method CollectSiblingNames(entities: set<Entity>, parentOrFolderId: Option<string>, excludeId: Option<string>)
    returns (names: set<string>)
    requires forall e :: e in entities ==> NoNullDereference(e, parentOrFolderId)
    ensures names == SiblingNames(entities, parentOrFolderId, excludeId)
  {
    names := {};
    var remaining := entities;
    while remaining != {}
      invariant remaining <= entities
      invariant names == SiblingNames(entities - remaining, parentOrFolderId, excludeId)
      decreases remaining
    {
      var obj :| obj in remaining;
      match obj {
        case FolderItem(f) =>
          if f.parentId.Some? && f.parentId == parentOrFolderId && f.id.Some? && f.id != excludeId {
            names := names + {f.name};
          }
        case DocumentItem(d) =>
          if d.folderId == parentOrFolderId && d.id != excludeId {
            names := names + {d.name};
          }
      }
      remaining := remaining - {obj};
      ghost var done := entities - remaining;
      assert done == (entities - (remaining + {obj})) + {obj};
    }
  }
}
