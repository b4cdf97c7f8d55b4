/**
 * The guarded extraction of the uploaded bundle: every member's resolved
 * target must lie under the resolved extraction directory before anything
 * is extracted. Path resolution is done by the file system, so each member
 * arrives with its resolved target already computed.
 *
 * The guard as written compares text (`PrefixSafe`, `FirstUnsafe`) and
 * admits a sibling directory whose name extends the base's. `SafeExtract`
 * runs that guard; `ContainedExtract` is the same extraction with
 * containment by path components (`Inside`, `FirstOutside`).
 */
module Archive {

  import opened Wrappers
  import opened Text

  /** A tar member: its name as stored, and the resolved path it would be written to. */
  datatype Member = Member(name: string, target: string)

  const UNSAFE_PREFIX: string := "Unsafe path in tar: "

  /** The guard as written: the resolved target's text starts with the base directory's text. */
  predicate PrefixSafe(m: Member, base: string)
  {
    StartsWith(m.target, base)
  }

  /** The position of the first member the guard rejects, if any. */
  function FirstUnsafe(members: seq<Member>, base: string): (r: Option<nat>)
    ensures r.Some? ==> r.value < |members| && !PrefixSafe(members[r.value], base)
    ensures r.Some? ==> forall j :: 0 <= j < r.value ==> PrefixSafe(members[j], base)
    ensures r.None? <==> forall j :: 0 <= j < |members| ==> PrefixSafe(members[j], base)
    decreases |members|
  {
    if members == [] then None
    else if !PrefixSafe(members[0], base) then Some(0)
    else
      var rest := FirstUnsafe(members[1..], base);
      if rest.None? then None else Some(rest.value + 1)
  }

  /** The member names, in archive order. */
  function Names(members: seq<Member>): (ns: seq<string>)
    ensures |ns| == |members|
    ensures forall j :: 0 <= j < |members| ==> ns[j] == members[j].name
    decreases |members|
  {
    if members == [] then [] else [members[0].name] + Names(members[1..])
  }

  /** The error the guard raises for a member. */
  function UnsafeError(m: Member): (e: string)
  {
    UNSAFE_PREFIX + m.name
  }

  /** The extraction directory: its resolved path and the member names extracted into it so far. */
  class Directory {
    var base: string
    var entries: seq<string>

    constructor (base: string)
      ensures this.base == base && entries == []
    {
      this.base := base;
      entries := [];
    }

    /**
     * `safe_extract`: checks every member before extracting any. The first
     * member whose resolved target does not start with the base directory's
     * text aborts with an error naming it, and nothing is extracted;
     * otherwise all members are.
     */
    method SafeExtract(members: seq<Member>) returns (err: Option<string>)
      modifies this`entries
      ensures FirstUnsafe(members, base).Some? ==>
        err == Some(UnsafeError(members[FirstUnsafe(members, base).value])) && entries == old(entries)
      ensures FirstUnsafe(members, base).None? ==> err == None && entries == old(entries) + Names(members)
    {
      var i := 0;
      while i < |members|
        invariant 0 <= i <= |members|
        invariant forall j :: 0 <= j < i ==> PrefixSafe(members[j], base)
      {
        if !StartsWith(members[i].target, base) {
          FirstUnsafeAt(members, base, i);
          return Some(UNSAFE_PREFIX + members[i].name);
        }
        i := i + 1;
      }
      entries := entries + Names(members);
      return None;
    }

    /**
     * The extraction with the guard the traversal check intends: the first
     * member whose target is not inside the base directory aborts with an
     * error naming it, and nothing is extracted; otherwise all members are.
     */
    method ContainedExtract(members: seq<Member>) returns (err: Option<string>)
      modifies this`entries
      ensures FirstOutside(members, base).Some? ==>
        err == Some(UnsafeError(members[FirstOutside(members, base).value])) && entries == old(entries)
      ensures FirstOutside(members, base).None? ==> err == None && entries == old(entries) + Names(members)
    {
      var i := 0;
      while i < |members|
        invariant 0 <= i <= |members|
        invariant forall j :: 0 <= j < i ==> ComponentSafe(members[j], base)
      {
        if !Inside(members[i].target, base) {
          FirstOutsideAt(members, base, i);
          return Some(UNSAFE_PREFIX + members[i].name);
        }
        i := i + 1;
      }
      entries := entries + Names(members);
      return None;
    }
  }

  /** The first member that fails the guard after only passing ones is the one `FirstUnsafe` finds. */
  lemma FirstUnsafeAt(members: seq<Member>, base: string, i: nat)
    requires i < |members| && !PrefixSafe(members[i], base)
    requires forall j :: 0 <= j < i ==> PrefixSafe(members[j], base)
    ensures FirstUnsafe(members, base) == Some(i)
  {
  }

  /** The first member that fails the guard after only passing ones is the one `FirstOutside` finds. */
  lemma FirstOutsideAt(members: seq<Member>, base: string, i: nat)
    requires i < |members| && !ComponentSafe(members[i], base)
    requires forall j :: 0 <= j < i ==> ComponentSafe(members[j], base)
    ensures FirstOutside(members, base) == Some(i)
  {
  }

  /** As written, an error is raised exactly when some member's target fails the textual prefix test. */
  lemma RejectsIffNoPrefix(members: seq<Member>, base: string)
    ensures FirstUnsafe(members, base).Some? <==> exists j :: 0 <= j < |members| && !StartsWith(members[j].target, base)
  {
    if FirstUnsafe(members, base).Some? {
      var k := FirstUnsafe(members, base).value;
      assert !StartsWith(members[k].target, base);
    }
  }

  /**
   * The guard as written compares text, not path components: with base `/tmp/ab`, the
   * member `../abc/x` resolves to `/tmp/abc/x`, which starts with `/tmp/ab`
   * and passes, although it lies in the sibling directory `/tmp/abc`.
   */
  lemma SiblingPrefixAccepted()
    ensures FirstUnsafe([Member("../abc/x", "/tmp/abc/x")], "/tmp/ab") == None
    ensures !Inside("/tmp/abc/x", "/tmp/ab")
  {
    assert "/tmp/abc/x"[..|"/tmp/ab"|] == "/tmp/ab";
    assert "/tmp/abc/x"[|"/tmp/ab"|] == 'c';
  }

  /** Containment by path components: the base itself, or a path under the base followed by a separator. */
  predicate Inside(target: string, base: string)
  {
    target == base || StartsWith(target, base + "/")
  }

  /** The guard with containment by components. */
  predicate ComponentSafe(m: Member, base: string)
  {
    Inside(m.target, base)
  }

  /** The position of the first member the component guard rejects, if any. */
  function FirstOutside(members: seq<Member>, base: string): (r: Option<nat>)
    ensures r.Some? ==> r.value < |members| && !ComponentSafe(members[r.value], base)
    ensures r.Some? ==> forall j :: 0 <= j < r.value ==> ComponentSafe(members[j], base)
    ensures r.None? <==> forall j :: 0 <= j < |members| ==> ComponentSafe(members[j], base)
    decreases |members|
  {
    if members == [] then None
    else if !ComponentSafe(members[0], base) then Some(0)
    else
      var rest := FirstOutside(members[1..], base);
      if rest.None? then None else Some(rest.value + 1)
  }

  /**
   * The component guard is stricter than the guard as written, and a target
   * it admits is the base or has a separator right after the base.
   */
  lemma InsideIsContainment(target: string, base: string)
    ensures Inside(target, base) ==> StartsWith(target, base)
    ensures Inside(target, base) <==>
      target == base || (|base| < |target| && target[..|base|] == base && target[|base|] == '/')
  {
    if StartsWith(target, base + "/") {
      assert target[..|base|] == (base + "/")[..|base|];
      assert target[|base|] == (base + "/")[|base|];
    }
    if |base| < |target| && target[..|base|] == base && target[|base|] == '/' {
      assert target[..|base| + 1] == base + "/";
    }
  }

  /** Every bundle the component guard admits is admitted by the guard as written. */
  lemma ComponentGuardStricter(members: seq<Member>, base: string)
    ensures FirstOutside(members, base).None? ==> FirstUnsafe(members, base).None?
  {
    forall j | 0 <= j < |members| && ComponentSafe(members[j], base)
      ensures PrefixSafe(members[j], base)
    {
      InsideIsContainment(members[j].target, base);
    }
  }

  /** The component guard rejects the sibling-directory member. */
  lemma SiblingRejected()
    ensures FirstOutside([Member("../abc/x", "/tmp/abc/x")], "/tmp/ab") == Some(0)
  {
    InsideIsContainment("/tmp/abc/x", "/tmp/ab");
    assert "/tmp/abc/x"[|"/tmp/ab"|] == 'c';
  }

  /** An error is raised exactly when some member's target lies outside the base directory. */
  lemma RejectsIffOutside(members: seq<Member>, base: string)
    ensures FirstOutside(members, base).Some? <==> exists j :: 0 <= j < |members| && !Inside(members[j].target, base)
  {
    if FirstOutside(members, base).Some? {
      var k := FirstOutside(members, base).value;
      assert !Inside(members[k].target, base);
    }
  }

  /** In an accepted bundle every target is the base or lies below it, past a separator. */
  lemma AcceptedAreUnderBase(members: seq<Member>, base: string, j: nat)
    requires FirstOutside(members, base).None? && j < |members|
    ensures members[j].target == base ||
      (|base| < |members[j].target| && members[j].target[..|base|] == base && members[j].target[|base|] == '/')
  {
    InsideIsContainment(members[j].target, base);
  }
}
