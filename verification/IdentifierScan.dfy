/** Searching a statement for a whole identifier, skipping a full identifier length after each rejected hit. */
module IdentifierScan {
  import opened Errors
  import opened Likes
  import opened SchemaIR

  predicate IdentifierByte(c: char) {
    c == '_' || 'a' <= c <= 'z' || '0' <= c <= '9'
  }

  function Lower(s: string): (r: string)
    ensures |r| == |s| && forall i :: 0 <= i < |s| ==> r[i] == Fold(s[i])
  {
    seq(|s|, i requires 0 <= i < |s| => Fold(s[i]))
  }

  predicate OccursAt(s: string, identifier: string, i: nat) {
    i + |identifier| <= |s| && s[i..i + |identifier|] == identifier
  }

  /** An occurrence with a boundary on either side. */
  predicate StandsAt(s: string, identifier: string, i: nat) {
    && OccursAt(s, identifier, i)
    && (i == 0 || !IdentifierByte(s[i - 1]))
    && (i + |identifier| == |s| || !IdentifierByte(s[i + |identifier|]))
  }

  predicate Stands(s: string, identifier: string) {
    exists i: nat {:trigger StandsAt(s, identifier, i)} :: i <= |s| && StandsAt(s, identifier, i)
  }

  /** The first occurrence from an offset on. */
  function IndexFrom(s: string, identifier: string, offset: nat): (r: Option<nat>)
    requires offset <= |s|
    ensures r.Some? ==> offset <= r.value && r.value + |identifier| <= |s| && OccursAt(s, identifier, r.value)
    decreases |s| - offset
  {
    if OccursAt(s, identifier, offset) then Some(offset)
    else if offset == |s| then None
    else IndexFrom(s, identifier, offset + 1)
  }

  lemma {:induction false} IndexIsFirst(s: string, identifier: string, offset: nat, j: nat)
    requires offset <= j <= |s| && OccursAt(s, identifier, j)
    ensures IndexFrom(s, identifier, offset).Some? && IndexFrom(s, identifier, offset).value <= j
    decreases |s| - offset
  {
    hide OccursAt;
    if !OccursAt(s, identifier, offset) {
      IndexIsFirst(s, identifier, offset + 1, j);
    }
  }

  /** What the search answers from an offset on. */
  predicate Found(s: string, identifier: string, offset: nat)
    requires identifier != "" && offset <= |s|
    decreases |s| - offset
  {
    match IndexFrom(s, identifier, offset)
    case None => false
    case Some(i) => StandsAt(s, identifier, i) || Found(s, identifier, i + |identifier|)
  }

  method IdentifierAppears(statement: string, identifier: string) returns (found: bool)
    requires identifier != ""
    ensures found == Found(Lower(statement), Lower(identifier), 0)
    ensures !SeparatedOverlap(Lower(identifier)) ==> (found <==> Stands(Lower(statement), Lower(identifier)))
  {
    hide OccursAt, SeparatedOverlap, Stands, IndexFrom, IdentifierByte, Lower;
    var s, id := Lower(statement), Lower(identifier);
    FoundExactly(s, id);
    var offset := 0;
    while true
      invariant offset <= |s| && Found(s, id, 0) == Found(s, id, offset)
      decreases |s| - offset
    {
      var index := IndexFrom(s, id, offset);
      if index.None? {
        return false;
      }
      var i := index.value;
      var beforeBoundary := i == 0 || !IdentifierByte(s[i - 1]);
      var after := i + |id|;
      var afterBoundary := after == |s| || !IdentifierByte(s[after]);
      if beforeBoundary && afterBoundary {
        return true;
      }
      offset := i + |id|;
    }
  }

  // ---------------------------------------------------------------- when skipping is harmless

  /** The identifier overlaps itself right after one of its bytes that no identifier may contain. */
  predicate SeparatedOverlap(identifier: string) {
    exists d :: 0 < d < |identifier| && Overlaps(identifier, d) && !IdentifierByte(identifier[d - 1])
  }

  predicate Overlaps(identifier: string, d: nat)
    requires d <= |identifier|
  {
    identifier[d..] == identifier[..|identifier| - d]
  }

  lemma OverlapOf(s: string, identifier: string, i: nat, j: nat)
    requires OccursAt(s, identifier, i) && OccursAt(s, identifier, j) && i < j < i + |identifier|
    ensures Overlaps(identifier, j - i) && s[j - 1] == identifier[j - 1 - i]
  {
    var n, d := |identifier|, j - i;
    assert s[i..i + n][d - 1] == s[j - 1];
    forall k | 0 <= k < n - d ensures identifier[d..][k] == identifier[..n - d][k] {
      assert identifier[d + k] == s[i..i + n][d + k] == s[j + k] == s[j..j + n][k];
    }
  }

  lemma {:induction false} FoundStands(s: string, identifier: string, offset: nat)
    requires identifier != "" && offset <= |s| && Found(s, identifier, offset)
    ensures Stands(s, identifier)
    decreases |s| - offset
  {
    var i := IndexFrom(s, identifier, offset).value;
    if !StandsAt(s, identifier, i) {
      FoundStands(s, identifier, i + |identifier|);
    }
  }

  lemma {:induction false} StandsFound(s: string, identifier: string, offset: nat, j: nat)
    requires identifier != "" && offset <= j <= |s| && StandsAt(s, identifier, j) && !SeparatedOverlap(identifier)
    ensures Found(s, identifier, offset)
    decreases |s| - offset
  {
    hide Overlaps, IdentifierByte, IndexFrom;
    IndexIsFirst(s, identifier, offset, j);
    var i := IndexFrom(s, identifier, offset).value;
    if !StandsAt(s, identifier, i) {
      if j < i + |identifier| {
        OverlapOf(s, identifier, i, j);
        assert false;
      }
      StandsFound(s, identifier, i + |identifier|, j);
    }
  }

  /** Without such an overlap the search misses nothing and invents nothing. */
  lemma FoundExactly(s: string, identifier: string)
    requires identifier != ""
    ensures !SeparatedOverlap(identifier) ==> (Found(s, identifier, 0) <==> Stands(s, identifier))
  {
    hide Found, SeparatedOverlap;
    if !SeparatedOverlap(identifier) {
      if Found(s, identifier, 0) {
        FoundStands(s, identifier, 0);
      }
      if Stands(s, identifier) {
        var j: nat :| j <= |s| && StandsAt(s, identifier, j);
        StandsFound(s, identifier, 0, j);
      }
    }
  }

  /** An identifier made of identifier bytes never overlaps itself that way. */
  lemma IdentifiersScanExactly(identifier: string)
    requires forall i :: 0 <= i < |identifier| ==> IdentifierByte(identifier[i])
    ensures !SeparatedOverlap(identifier)
  {
  }

  /** The bytes that bound no identifier are exactly those that normalized names are made of. */
  lemma IdentifierBytes(c: char)
    ensures IdentifierByte(c) <==> exists name :: DatabaseIdentifier(name) && c in name
  {
    if IdentifierByte(c) {
      assert DatabaseIdentifier(['_', c]) && c in ['_', c];
    }
  }

  /** So the search is exact for every normalized name. */
  lemma NormalizedNamesFound(s: string, identifier: string)
    requires DatabaseIdentifier(identifier)
    ensures Found(s, identifier, 0) <==> Stands(s, identifier)
  {
    IdentifiersScanExactly(identifier);
    hide Found, Stands, SeparatedOverlap;
    FoundExactly(s, identifier);
  }

  /** A statement whose only whole occurrence the search skips. */
  function Skipped(identifier: string, d: nat): string
    requires 0 < d < |identifier|
  {
    [if identifier[0] == 'x' then 'y' else 'x'] + identifier[..d] + identifier
  }

  lemma SkippedStands(identifier: string, d: nat)
    requires 0 < d < |identifier| && !IdentifierByte(identifier[d - 1])
    ensures Stands(Skipped(identifier, d), identifier)
  {
    var s := Skipped(identifier, d);
    assert s[d] == identifier[d - 1];
    assert s[d + 1..d + 1 + |identifier|] == identifier;
    assert StandsAt(s, identifier, d + 1);
  }

  lemma SkippedHits(identifier: string, d: nat)
    requires 0 < d < |identifier| && Overlaps(identifier, d)
    ensures !OccursAt(Skipped(identifier, d), identifier, 0) && OccursAt(Skipped(identifier, d), identifier, 1)
  {
    var s, n := Skipped(identifier, d), |identifier|;
    assert s[0..n][0] == s[0] != identifier[0];
    assert identifier == identifier[..n - d] + identifier[n - d..];
    forall k | 0 <= k < n ensures s[1..1 + n][k] == identifier[k] {
      if k < d {
        assert s[1 + k] == identifier[k];
      } else {
        assert s[1 + k] == identifier[k - d];
        assert identifier[d..][k - d] == identifier[..n - d][k - d];
      }
    }
  }

  lemma SkippedMissed(identifier: string, d: nat)
    requires 0 < d < |identifier| && Overlaps(identifier, d)
    ensures !Found(Skipped(identifier, d), identifier, 0)
  {
    SkippedHits(identifier, d);
    hide OccursAt, Overlaps;
    var s, n := Skipped(identifier, d), |identifier|;
    assert IndexFrom(s, identifier, 0) == Some(1);
    assert !StandsAt(s, identifier, 1);
    TooLate(s, identifier, 1 + n);
  }

  lemma TooLate(s: string, identifier: string, offset: nat)
    requires offset <= |s| < offset + |identifier|
    ensures IndexFrom(s, identifier, offset).None?
  {
  }

  /** The search is exact for every statement if and only if the identifier has no separated overlap. */
  lemma ExactCondition(identifier: string)
    requires identifier != ""
    ensures (forall s: string {:trigger Stands(s, identifier)} :: Found(s, identifier, 0) <==> Stands(s, identifier))
       <==> !SeparatedOverlap(identifier)
  {
    forall s: string ensures !SeparatedOverlap(identifier) ==> (Found(s, identifier, 0) <==> Stands(s, identifier)) {
      FoundExactly(s, identifier);
    }
    if SeparatedOverlap(identifier) {
      var d :| 0 < d < |identifier| && Overlaps(identifier, d) && !IdentifierByte(identifier[d - 1]);
      SkippedStands(identifier, d);
      SkippedMissed(identifier, d);
    }
  }

  /** An input the search misses; no column or table the engine searches for contains such a byte. */
  lemma OverlapMissed()
    ensures Stands("xa-a-a", "a-a") && !Found("xa-a-a", "a-a", 0)
  {
    assert Skipped("a-a", 2) == "xa-a-a" by {
      assert "a-a"[0] == 'a' && "a-a"[..2] == "a-";
    }
    assert "a-a"[2..] == "a" == "a-a"[..1];
    SkippedStands("a-a", 2);
    SkippedMissed("a-a", 2);
  }
}
