/** What a reported change shows: the masking of credentials in mcp_server.py, and the paths it prints. */
module DiffMask {
  import opened DiffEngine
  import opened JsonValues
  import opened Text

  const MASK := "***REDACTED***"
  const CREDENTIALS := "credentials"

  // ---- Paths, printed and taken apart ----

  /** A printed path, split at its slashes, holds every part of every segment, in order. */
  lemma {:induction false} PrintedSegments(path: seq<string>)
    requires path != []
    ensures Split(Render(path), '/') == Split(Render(path[..|path| - 1]), '/') + Split(path[|path| - 1], '/')
  {
    SplitJoin(Render(path[..|path| - 1]), path[|path| - 1], '/');
    assert "/" == ['/'];
  }

  lemma {:induction false} SlashFreeSegments(path: seq<string>)
    requires forall s :: s in path ==> '/' !in s
    ensures Split(Render(path), '/') == [""] + path
  {
    if path != [] {
      var last := |path| - 1;
      PrintedSegments(path);
      SlashFreeSegments(path[..last]);
      SplitNone(path[last], '/');
      assert path == path[..last] + [path[last]];
    }
  }

  /** Names without a slash: different positions print different paths. */
  lemma PathsTellPositions(p: seq<string>, q: seq<string>)
    requires (forall s :: s in p ==> '/' !in s) && (forall s :: s in q ==> '/' !in s)
    requires Render(p) == Render(q)
    ensures p == q
  {
    SlashFreeSegments(p);
    SlashFreeSegments(q);
    assert p == ([""] + p)[1..] && q == ([""] + q)[1..];
  }

  /** The diff's paths are not escaped: a slash inside a name prints as one more level. */
  lemma SlashIsAmbiguous(a: string, b: string)
    ensures Render([a + "/" + b]) == Render([a, b])
  {
    assert [a + "/" + b][..0] == [] && [a, b][..1] == [a] && [a][..0] == [];
    assert Render([a]) == "/" + a;
    assert Render([a, b]) == "/" + a + "/" + b;
    assert "/" + (a + "/" + b) == "/" + a + "/" + b;
  }

  // ---- Masking ----

  function LowerChar(c: char): char { if 'A' <= c <= 'Z' then c + ' ' else c }

  function Lower(s: string): string { seq(|s|, i requires 0 <= i < |s| => LowerChar(s[i])) }

  predicate HasCredentialsSegment(path: string) {
    exists s :: s in Split(path, '/') && s != "" && Lower(s) == CREDENTIALS
  }

  function LeafName(path: string): string {
    var parts := Split(path, '/');
    parts[|parts| - 1]
  }

  function Masked(v: Json, isReference: string -> bool): Json {
    match v
    case Obj(m) => Obj(map k | k in m :: Masked(m[k], isReference))
    case Arr(items) => Arr(seq(|items|, i requires 0 <= i < |items| => Masked(items[i], isReference)))
    case Null => Null
    case Str(s) => if isReference(s) then v else Str(MASK)
    case _ => Str(MASK)
  }

  datatype ReportEntry = ReportEntry(path: string, left: Json, right: Json)

  function ChangeEntry(c: Change, isReference: string -> bool, isCredentialKey: string -> bool): ReportEntry {
    var path := Render(c.path);
    var shown := if path == "" then "/" else path;
    if HasCredentialsSegment(path) || isCredentialKey(LeafName(path))
    then ReportEntry(shown, Masked(c.left, isReference), Masked(c.right, isReference))
    else ReportEntry(shown, c.left, c.right)
  }

  /** Alike but for the secrets: the same mappings and lists, nulls and references, around any literals. */
  predicate Alike(a: Json, b: Json, isReference: string -> bool) {
    match a
    case Obj(m) => b.Obj? && m.Keys == b.fields.Keys && forall k :: k in m ==> Alike(m[k], b.fields[k], isReference)
    case Arr(items) =>
      b.Arr? && |items| == |b.items| && forall i :: 0 <= i < |items| ==> Alike(items[i], b.items[i], isReference)
    case Null => b.Null?
    case _ =>
      if a.Str? && isReference(a.s) then b == a
      else b.Bool? || b.Num? || (b.Str? && !isReference(b.s))
  }

  /** A masked value tells its shape, its nulls and its references, and nothing else. */
  lemma {:induction false} MaskTellsOnlyShape(a: Json, b: Json, isReference: string -> bool)
    requires !isReference(MASK)
    ensures Masked(a, isReference) == Masked(b, isReference) <==> Alike(a, b, isReference)
  {
    match a {
      case Obj(m) =>
        if b.Obj? && m.Keys == b.fields.Keys {
          forall k | k in m { MaskTellsOnlyShape(m[k], b.fields[k], isReference); }
          MaskedFields(m, b.fields, isReference);
        } else if b.Obj? {
          assert Masked(a, isReference).fields.Keys == m.Keys;
          assert Masked(b, isReference).fields.Keys == b.fields.Keys;
        }
      case Arr(items) =>
        if b.Arr? && |items| == |b.items| {
          forall i | 0 <= i < |items| { MaskTellsOnlyShape(items[i], b.items[i], isReference); }
          MaskedItems(items, b.items, isReference);
        } else if b.Arr? {
          assert |Masked(a, isReference).items| == |items|;
          assert |Masked(b, isReference).items| == |b.items|;
        }
      case _ =>
    }
  }

  lemma MaskedFields(m: map<string, Json>, n: map<string, Json>, isReference: string -> bool)
    requires m.Keys == n.Keys
    ensures Masked(Obj(m), isReference) == Masked(Obj(n), isReference)
            <==> forall k :: k in m ==> Masked(m[k], isReference) == Masked(n[k], isReference)
  {
    var (a, b) := (Masked(Obj(m), isReference).fields, Masked(Obj(n), isReference).fields);
    assert a.Keys == b.Keys == m.Keys;
    assert forall k :: k in m ==> a[k] == Masked(m[k], isReference) && b[k] == Masked(n[k], isReference);
  }

  lemma MaskedItems(xs: seq<Json>, ys: seq<Json>, isReference: string -> bool)
    requires |xs| == |ys|
    ensures Masked(Arr(xs), isReference) == Masked(Arr(ys), isReference)
            <==> forall i :: 0 <= i < |xs| ==> Masked(xs[i], isReference) == Masked(ys[i], isReference)
  {
    var (a, b) := (Masked(Arr(xs), isReference).items, Masked(Arr(ys), isReference).items);
    assert forall i :: 0 <= i < |xs| ==> a[i] == Masked(xs[i], isReference) && b[i] == Masked(ys[i], isReference);
  }

  // ---- Nothing under credentials is shown ----

  lemma {:induction false} SegmentIsPrinted(path: seq<string>, i: nat)
    requires i < |path| && '/' !in path[i]
    ensures path[i] in Split(Render(path), '/')
  {
    var last := |path| - 1;
    PrintedSegments(path);
    if i == last {
      SplitNone(path[i], '/');
      assert Split(path[i], '/')[0] == path[i];
    } else {
      SegmentIsPrinted(path[..last], i);
    }
  }

  /** However deep, and whatever the other names on the way: two changes at one position under a
      credentials segment are reported alike exactly when they differ in nothing but literals. */
  lemma CredentialChangesTellOnlyShape(c: Change, d: Change, i: nat, isReference: string -> bool,
                                       isCredentialKey: string -> bool)
    requires c.path == d.path && i < |c.path| && Lower(c.path[i]) == CREDENTIALS && !isReference(MASK)
    ensures ChangeEntry(c, isReference, isCredentialKey) == ChangeEntry(d, isReference, isCredentialKey)
            <==> Alike(c.left, d.left, isReference) && Alike(c.right, d.right, isReference)
  {
    var s := c.path[i];
    LowerKeepsSlashes(s);
    SegmentIsPrinted(c.path, i);
    assert s in Split(Render(c.path), '/') && s != "" && Lower(s) == CREDENTIALS;
    MaskTellsOnlyShape(c.left, d.left, isReference);
    MaskTellsOnlyShape(c.right, d.right, isReference);
  }

  lemma LeafIsLastName(path: seq<string>)
    requires forall s :: s in path ==> '/' !in s
    ensures LeafName(Render(path)) == if path == [] then "" else path[|path| - 1]
  {
    SlashFreeSegments(path);
  }

  predicate NamesCredentials(path: seq<string>) { exists s :: s in path && Lower(s) == CREDENTIALS }

  lemma SegmentsAreNames(path: seq<string>)
    requires forall s :: s in path ==> '/' !in s
    ensures HasCredentialsSegment(Render(path)) <==> NamesCredentials(path)
  {
    SlashFreeSegments(path);
    var parts := [""] + path;
    if s :| s in path && Lower(s) == CREDENTIALS {
      LowerKeepsSlashes(s);
      assert s in parts;
    }
    if s :| s in parts && s != "" && Lower(s) == CREDENTIALS { assert s in path; }
  }

  /** What the report of a change tells, for names without a slash: literals only where no name on the way is
      that of a credentials block and the last one does not look like a secret. */
  lemma ReportsTellExactly(c: Change, d: Change, isReference: string -> bool, isCredentialKey: string -> bool)
    requires c.path == d.path && !isReference(MASK) && forall s :: s in c.path ==> '/' !in s
    ensures ChangeEntry(c, isReference, isCredentialKey) == ChangeEntry(d, isReference, isCredentialKey)
            <==> if NamesCredentials(c.path) || isCredentialKey(if c.path == [] then "" else c.path[|c.path| - 1])
                 then Alike(c.left, d.left, isReference) && Alike(c.right, d.right, isReference)
                 else c == d
  {
    SegmentsAreNames(c.path);
    LeafIsLastName(c.path);
    MaskTellsOnlyShape(c.left, d.left, isReference);
    MaskTellsOnlyShape(c.right, d.right, isReference);
  }

  lemma LowerKeepsSlashes(s: string)
    requires Lower(s) == CREDENTIALS
    ensures '/' !in s && s != ""
  {
    assert '/' !in CREDENTIALS && |CREDENTIALS| == 11;
    forall i | 0 <= i < |s| ensures s[i] != '/' { assert Lower(s)[i] == LowerChar(s[i]) && Lower(s)[i] in CREDENTIALS; }
  }
}
