/** Linking of library addresses into contract bytecode: a string patched in place, file by file,
    library by library and fixup by fixup. */
module LinkBytecode {
  datatype Fixup = Fixup(start: nat, length: nat)
  datatype LibraryReference = LibraryReference(name: string, fixups: seq<Fixup>)
  datatype FileReference = FileReference(name: string, libraries: seq<LibraryReference>)

  /** The first n characters, or all there are. */
  function Take(s: string, n: nat): string {
    if n <= |s| then s[..n] else s
  }

  /** All but the first n characters, or none. */
  function Drop(s: string, n: nat): string {
    if n <= |s| then s[n..] else ""
  }

  /** One patch: two characters per byte, after the two characters of the 0x prefix. */
  function Patched(code: string, fixup: Fixup, address: string): string {
    Take(code, 2 + fixup.start * 2) + Drop(address, 2) + Drop(code, 2 + (fixup.start + fixup.length) * 2)
  }

  /** A fixup together with the address that goes there. */
  datatype Placement = Placement(fixup: Fixup, address: string)

  function PatchAll(code: string, ps: seq<Placement>): string
    decreases |ps|
  {
    if ps == [] then code else PatchAll(Patched(code, ps[0].fixup, ps[0].address), ps[1..])
  }

  function OfFixups(fixups: seq<Fixup>, address: string): seq<Placement> {
    if fixups == [] then [] else [Placement(fixups[0], address)] + OfFixups(fixups[1..], address)
  }

  function OfLibraries(refs: seq<LibraryReference>, libraries: map<string, string>): seq<Placement> {
    if refs == [] then []
    else
      (if refs[0].name in libraries then OfFixups(refs[0].fixups, libraries[refs[0].name]) else [])
        + OfLibraries(refs[1..], libraries)
  }

  /** The placements of all files, in the order the loops visit them. */
  function Placements(refs: seq<FileReference>, libraries: map<string, string>): seq<Placement> {
    if refs == [] then [] else OfLibraries(refs[0].libraries, libraries) + Placements(refs[1..], libraries)
  }

  /** One library's turn: its fixups come first when it is supplied, and it is skipped otherwise. */
  lemma LibraryTurn(refs: seq<LibraryReference>, j: nat, libraries: map<string, string>, later: seq<Placement>)
    requires j < |refs|
    ensures OfLibraries(refs[j..], libraries) + later
      == (if refs[j].name in libraries then OfFixups(refs[j].fixups, libraries[refs[j].name]) else [])
           + (OfLibraries(refs[j + 1..], libraries) + later)
  {
    assert refs[j..][1..] == refs[j + 1..];
  }

  lemma FixupTurn(code: string, fixups: seq<Fixup>, k: nat, address: string, rest: seq<Placement>)
    requires k < |fixups|
    ensures PatchAll(code, OfFixups(fixups[k..], address) + rest)
      == PatchAll(Patched(code, fixups[k], address), OfFixups(fixups[k + 1..], address) + rest)
  {
    var ps := OfFixups(fixups[k..], address) + rest;
    assert fixups[k..][1..] == fixups[k + 1..];
    assert ps[1..] == OfFixups(fixups[k + 1..], address) + rest;
  }

  method Link(bytecode: string, linkReferences: seq<FileReference>, libraries: map<string, string>)
    returns (linked: string)
    ensures linked == PatchAll(bytecode, Placements(linkReferences, libraries))
  {
    hide PatchAll, Patched, OfFixups, OfLibraries;
    linked := bytecode;
    ghost var target := PatchAll(bytecode, Placements(linkReferences, libraries));
    for i := 0 to |linkReferences|
      invariant PatchAll(linked, Placements(linkReferences[i..], libraries)) == target
    {
      var references := linkReferences[i].libraries;
      ghost var later := Placements(linkReferences[i + 1..], libraries);
      assert linkReferences[i..][1..] == linkReferences[i + 1..];
      assert references[0..] == references;
      for j := 0 to |references|
        invariant PatchAll(linked, OfLibraries(references[j..], libraries) + later) == target
      {
        ghost var rest := OfLibraries(references[j + 1..], libraries) + later;
        LibraryTurn(references, j, libraries, later);
        if references[j].name !in libraries {
          assert [] + rest == rest;
          continue;
        }
        var address := libraries[references[j].name];
        var fixups := references[j].fixups;
        assert fixups[0..] == fixups;
        for k := 0 to |fixups|
          invariant PatchAll(linked, OfFixups(fixups[k..], address) + rest) == target
        {
          FixupTurn(linked, fixups, k, address, rest);
          linked := Patched(linked, fixups[k], address);
        }
        NothingLeft(fixups, address, rest);
      }
      NoLibraryLeft(references, libraries, later);
    }
    NothingToPatch(linked);
  }

  lemma NothingLeft(fixups: seq<Fixup>, address: string, rest: seq<Placement>)
    ensures OfFixups(fixups[|fixups|..], address) + rest == rest
  {
  }

  lemma NoLibraryLeft(refs: seq<LibraryReference>, libraries: map<string, string>, rest: seq<Placement>)
    ensures OfLibraries(refs[|refs|..], libraries) + rest == rest
  {
  }

  lemma NothingToPatch(code: string)
    ensures PatchAll(code, []) == code
  {
  }

  // ---------- what the result is, character by character ----------

  /** The placement fits the code and its address has two digits per byte after the prefix. */
  predicate Fits(size: nat, p: Placement) {
    2 + (p.fixup.start + p.fixup.length) * 2 <= size && |p.address| == 2 + p.fixup.length * 2
  }

  predicate Apart(p: Placement, q: Placement) {
    p.fixup.start + p.fixup.length <= q.fixup.start || q.fixup.start + q.fixup.length <= p.fixup.start
  }

  ghost predicate Linkable(size: nat, ps: seq<Placement>) {
    && (forall i :: 0 <= i < |ps| ==> Fits(size, ps[i]))
    && (forall i, j :: 0 <= i < j < |ps| ==> Apart(ps[i], ps[j]))
  }

  predicate Covers(p: Placement, k: nat) {
    2 + p.fixup.start * 2 <= k < 2 + (p.fixup.start + p.fixup.length) * 2
  }

  /** The address digit a placement puts at position k. */
  function Digit(p: Placement, k: nat): char
    requires Covers(p, k) && |p.address| == 2 + p.fixup.length * 2
  {
    p.address[k - p.fixup.start * 2]
  }

  lemma PatchedAt(code: string, p: Placement, k: nat)
    requires Fits(|code|, p) && k < |code|
    ensures |Patched(code, p.fixup, p.address)| == |code|
    ensures Patched(code, p.fixup, p.address)[k] == if Covers(p, k) then Digit(p, k) else code[k]
  {
  }

  /** A position no placement covers keeps its character. */
  lemma {:induction false} LinkedUntouched(code: string, ps: seq<Placement>, k: nat)
    requires Linkable(|code|, ps) && k < |code|
    requires forall i :: 0 <= i < |ps| ==> !Covers(ps[i], k)
    ensures |PatchAll(code, ps)| == |code| && PatchAll(code, ps)[k] == code[k]
    decreases |ps|
  {
    if ps != [] {
      PatchedAt(code, ps[0], k);
      LinkedUntouched(Patched(code, ps[0].fixup, ps[0].address), ps[1..], k);
    }
  }

  /** A position a placement covers holds that placement's digit. */
  lemma {:induction false} LinkedCovered(code: string, ps: seq<Placement>, k: nat, i: nat)
    requires Linkable(|code|, ps) && k < |code| && i < |ps| && Covers(ps[i], k)
    ensures |PatchAll(code, ps)| == |code| && PatchAll(code, ps)[k] == Digit(ps[i], k)
    decreases |ps|
  {
    var patched := Patched(code, ps[0].fixup, ps[0].address);
    PatchedAt(code, ps[0], k);
    if i == 0 {
      assert forall j :: 0 <= j < |ps[1..]| ==> Apart(ps[0], ps[1..][j]);
      LinkedUntouched(patched, ps[1..], k);
    } else {
      LinkedCovered(patched, ps[1..], k, i - 1);
    }
  }

  /** Linking keeps the length, and each character is the digit of the placement that covers it, or
      the original one when none does. */
  lemma LinkedAt(code: string, ps: seq<Placement>, k: nat)
    requires Linkable(|code|, ps) && k < |code|
    ensures |PatchAll(code, ps)| == |code|
    ensures forall i :: 0 <= i < |ps| && Covers(ps[i], k) ==> PatchAll(code, ps)[k] == Digit(ps[i], k)
    ensures (forall i :: 0 <= i < |ps| ==> !Covers(ps[i], k)) ==> PatchAll(code, ps)[k] == code[k]
  {
    hide PatchAll, Covers;
    if i :| 0 <= i < |ps| && Covers(ps[i], k) {
      forall j | 0 <= j < |ps| && Covers(ps[j], k)
        ensures |PatchAll(code, ps)| == |code| && PatchAll(code, ps)[k] == Digit(ps[j], k)
      {
        LinkedCovered(code, ps, k, j);
      }
    } else {
      LinkedUntouched(code, ps, k);
    }
  }

  lemma LinkedLength(code: string, ps: seq<Placement>)
    requires Linkable(|code|, ps)
    ensures |PatchAll(code, ps)| == |code|
    decreases |ps|
  {
    if ps != [] {
      if |code| > 0 {
        PatchedAt(code, ps[0], 0);
      }
      LinkedLength(Patched(code, ps[0].fixup, ps[0].address), ps[1..]);
    }
  }

  // ---------- independence of the iteration order ----------

  /** A fixup of a library is listed somewhere among the files. */
  ghost predicate Mentions(refs: seq<FileReference>, name: string, fixup: Fixup) {
    exists f, l :: 0 <= f < |refs| && 0 <= l < |refs[f].libraries|
      && refs[f].libraries[l].name == name && fixup in refs[f].libraries[l].fixups
  }

  lemma {:induction false} FixupPlaced(fixups: seq<Fixup>, address: string, p: Placement)
    ensures p in OfFixups(fixups, address) <==> p.address == address && p.fixup in fixups
  {
    if fixups != [] {
      FixupPlaced(fixups[1..], address, p);
    }
  }

  lemma {:induction false} LibraryPlaced(refs: seq<LibraryReference>, libraries: map<string, string>, p: Placement)
    ensures p in OfLibraries(refs, libraries) <==>
      exists l :: 0 <= l < |refs| && refs[l].name in libraries && libraries[refs[l].name] == p.address
        && p.fixup in refs[l].fixups
  {
    if refs != [] {
      var rest := refs[1..];
      LibraryPlaced(rest, libraries, p);
      if refs[0].name in libraries {
        FixupPlaced(refs[0].fixups, libraries[refs[0].name], p);
      }
      assert forall l :: 0 <= l < |rest| ==> rest[l] == refs[l + 1];
      assert forall l :: 0 < l < |refs| ==> refs[l] == rest[l - 1];
    }
  }

  /** A placement is made if and only if its library is supplied with that address and some file
      mentions its fixup. */
  lemma {:induction false} Placed(refs: seq<FileReference>, libraries: map<string, string>, p: Placement)
    ensures p in Placements(refs, libraries) <==>
      exists name :: name in libraries && libraries[name] == p.address && Mentions(refs, name, p.fixup)
  {
    if refs != [] {
      var rest := refs[1..];
      Placed(rest, libraries, p);
      LibraryPlaced(refs[0].libraries, libraries, p);
      forall name
        ensures Mentions(refs, name, p.fixup) <==>
          Mentions(rest, name, p.fixup)
          || exists l :: 0 <= l < |refs[0].libraries| && refs[0].libraries[l].name == name
               && p.fixup in refs[0].libraries[l].fixups
      {
        MentionsHead(refs, name, p.fixup);
      }
    }
  }

  lemma MentionsHead(refs: seq<FileReference>, name: string, fixup: Fixup)
    requires refs != []
    ensures Mentions(refs, name, fixup) <==>
      Mentions(refs[1..], name, fixup)
      || exists l :: 0 <= l < |refs[0].libraries| && refs[0].libraries[l].name == name
           && fixup in refs[0].libraries[l].fixups
  {
    var rest := refs[1..];
    assert forall f :: 0 <= f < |rest| ==> rest[f] == refs[f + 1];
    assert forall f :: 0 < f < |refs| ==> refs[f] == rest[f - 1];
  }

  /** Two orders of the same placements link to the same code. */
  lemma SamePlacementsSameCode(code: string, ps: seq<Placement>, qs: seq<Placement>)
    requires Linkable(|code|, ps) && Linkable(|code|, qs)
    requires forall p :: p in ps <==> p in qs
    ensures PatchAll(code, ps) == PatchAll(code, qs)
  {
    LinkedLength(code, ps);
    LinkedLength(code, qs);
    var a, b := PatchAll(code, ps), PatchAll(code, qs);
    forall k: nat | k < |code|
      ensures a[k] == b[k]
    {
      LinkedAt(code, ps, k);
      LinkedAt(code, qs, k);
      if i :| 0 <= i < |ps| && Covers(ps[i], k) {
        assert ps[i] in qs;
      } else if j :| 0 <= j < |qs| && Covers(qs[j], k) {
        assert qs[j] in ps;
      }
    }
  }

  /** The linked code does not depend on the order in which files, libraries and fixups are listed. */
  lemma LinkOrderIndependent(code: string, refs: seq<FileReference>, refs': seq<FileReference>,
                             libraries: map<string, string>)
    requires Linkable(|code|, Placements(refs, libraries)) && Linkable(|code|, Placements(refs', libraries))
    requires forall name, fixup :: Mentions(refs, name, fixup) <==> Mentions(refs', name, fixup)
    ensures PatchAll(code, Placements(refs, libraries)) == PatchAll(code, Placements(refs', libraries))
  {
    forall p
      ensures p in Placements(refs, libraries) <==> p in Placements(refs', libraries)
    {
      Placed(refs, libraries, p);
      Placed(refs', libraries, p);
    }
    SamePlacementsSameCode(code, Placements(refs, libraries), Placements(refs', libraries));
  }
}
