/** Tag ids made from labels, and the idempotent "ensure" that creates a tag
    on first use. The slug is computed over ASCII (see README "Left out"). */
module TagEnsure {
  import opened Common
  import opened Tables

  /** `\w` over ASCII. */
  predicate IsWordChar(c: char) { IsAsciiAlnum(c) || c == '_' }

  /** The characters `[^\w\s-]` does not delete. */
  predicate Kept(c: char) { IsWordChar(c) || IsPySpace(c) || c == '-' }

  /** The characters of a `[\s_-]+` run. */
  predicate IsSep(c: char) { IsPySpace(c) || c == '_' || c == '-' }

  /** Step 3: delete every character outside `[\w\s-]`. */
  function DeleteOthers(s: string): (r: string)
    ensures forall i :: 0 <= i < |r| ==> Kept(r[i])
    ensures (forall i :: 0 <= i < |s| ==> !IsAsciiUpper(s[i])) ==> forall i :: 0 <= i < |r| ==> !IsAsciiUpper(r[i])
    ensures (forall i :: 0 <= i < |s| ==> Kept(s[i])) ==> r == s
  {
    if s == [] then []
    else if Kept(s[0]) then [s[0]] + DeleteOthers(s[1..])
    else DeleteOthers(s[1..])
  }

  /** Drops the separators at the front. */
  function DropSeps(s: string): (r: string)
    ensures |r| <= |s|
    ensures r != [] ==> !IsSep(r[0])
    ensures KeptLower(s) ==> KeptLower(r)
  {
    if s != [] && IsSep(s[0]) then DropSeps(s[1..]) else s
  }

  /** Step 4: every maximal run of separators becomes one "_". */
  function Collapse(s: string): (r: string)
    ensures r != [] && s != [] ==> (r[0] == '_' <==> IsSep(s[0]))
    ensures r == [] <==> s == []
    decreases |s|
  {
    if s == [] then []
    else if IsSep(s[0]) then
      var rest := DropSeps(s[1..]);
      "_" + Collapse(rest)
    else [s[0]] + Collapse(s[1..])
  }

  /** No two "_" in a row. */
  predicate NoDoubleUnderscore(r: string) {
    forall i :: 0 <= i < |r| - 1 ==> !(r[i] == '_' && r[i + 1] == '_')
  }

  /** Every character survived step 3 and is not an ASCII capital. */
  predicate KeptLower(s: string) {
    forall i :: 0 <= i < |s| ==> Kept(s[i]) && !IsAsciiUpper(s[i])
  }

  /** Every character is a word character and not an ASCII capital. */
  predicate WordLower(r: string) {
    forall i :: 0 <= i < |r| ==> IsWordChar(r[i]) && !IsAsciiUpper(r[i])
  }

  /** Collapsing leaves no "__", and collapsing lowercase characters that
      survived step 3 leaves only lowercase word characters. */
  lemma {:induction false} CollapseShape(s: string)
    ensures NoDoubleUnderscore(Collapse(s))
    ensures KeptLower(s) ==> WordLower(Collapse(s))
    decreases |s|
  {
    if s != [] {
      var r := Collapse(s);
      var head, t;
      if IsSep(s[0]) {
        var rest := DropSeps(s[1..]);
        if KeptLower(s) {
          assert KeptLower(s[1..]) by {
            forall i | 0 <= i < |s[1..]| ensures Kept(s[1..][i]) && !IsAsciiUpper(s[1..][i]) {
              assert s[1..][i] == s[i + 1];
            }
          }
        }
        CollapseShape(rest);
        head, t := '_', Collapse(rest);
        assert t != [] ==> t[0] != '_';
      } else {
        if KeptLower(s) {
          assert KeptLower(s[1..]) by {
            forall i | 0 <= i < |s[1..]| ensures Kept(s[1..][i]) && !IsAsciiUpper(s[1..][i]) {
              assert s[1..][i] == s[i + 1];
            }
          }
        }
        CollapseShape(s[1..]);
        head, t := s[0], Collapse(s[1..]);
      }
      assert r == [head] + t;
      forall i | 0 <= i < |r| - 1 ensures !(r[i] == '_' && r[i + 1] == '_') {
        if i > 0 {
          assert r[i] == t[i - 1] && r[i + 1] == t[i];
        }
      }
      if KeptLower(s) {
        forall i | 0 <= i < |r| ensures IsWordChar(r[i]) && !IsAsciiUpper(r[i]) {
          if i > 0 {
            assert r[i] == t[i - 1];
          } else {
            assert Kept(s[0]) && !IsAsciiUpper(s[0]);
          }
        }
      }
    }
  }

  /** `slugify`: strip, lowercase, delete, collapse. */
  function Slugify(text: string): string {
    Collapse(DeleteOthers(Lower(PyStrip(text))))
  }

  /** The slug has no whitespace, no "-" and no "__"; its characters are
      lowercase ASCII letters, digits and "_". */
  lemma SlugShape(text: string)
    ensures var r := Slugify(text);
      && (forall i :: 0 <= i < |r| ==> !IsPySpace(r[i]) && r[i] != '-' && !IsAsciiUpper(r[i]))
      && (forall i :: 0 <= i < |r| ==> IsWordChar(r[i]))
      && (forall i :: 0 <= i < |r| - 1 ==> !(r[i] == '_' && r[i + 1] == '_'))
  {
    var p := PyStrip(text);
    var l := Lower(p);
    forall i | 0 <= i < |l| ensures !IsAsciiUpper(l[i]) {
      assert l[i] == LowerChar(p[i]);
    }
    var d := DeleteOthers(l);
    var r := Collapse(d);
    CollapseShape(d);
    assert Slugify(text) == r;
    forall i | 0 <= i < |r| ensures !IsPySpace(r[i]) && r[i] != '-' {
      WordCharIsNoSeparator(r[i]);
    }
  }

  lemma WordCharIsNoSeparator(c: char)
    requires IsWordChar(c)
    ensures !IsPySpace(c) && c != '-'
  {
  }

  /** A string already in slug shape is its own collapse. */
  lemma {:induction false} CollapseOfSlug(s: string)
    requires forall i :: 0 <= i < |s| ==> IsWordChar(s[i])
    requires forall i :: 0 <= i < |s| - 1 ==> !(s[i] == '_' && s[i + 1] == '_')
    ensures Collapse(s) == s
  {
    if s != [] {
      var t := s[1..];
      CollapseOfSlug(t);
      if IsSep(s[0]) {
        assert s[0] == '_';
        assert t != [] ==> !IsSep(t[0]) by {
          if t != [] { assert t[0] == s[1]; }
        }
        assert DropSeps(t) == t;
      }
    }
  }

  /** `slugify` is idempotent. */
  lemma SlugifyIdempotent(text: string)
    ensures Slugify(Slugify(text)) == Slugify(text)
  {
    var r := Slugify(text);
    SlugShape(text);
    assert PyStrip(r) == r by {
      assert TrimStart(r, IsPySpace) == r;
      assert TrimEnd(r, IsPySpace) == r;
    }
    assert Lower(r) == r;
    assert DeleteOthers(r) == r;
    CollapseOfSlug(r);
  }

  /** Lowercasing neither makes nor removes whitespace. */
  lemma LowerKeepsSpace(c: char)
    ensures IsPySpace(LowerChar(c)) <==> IsPySpace(c)
  {
  }

  /** Lower-casing commutes with dropping a prefix. */
  lemma LowerSuffix(s: string, k: nat)
    requires k <= |s|
    ensures Lower(s)[k..] == Lower(s[k..])
  {
    var a, b := Lower(s)[k..], Lower(s[k..]);
    forall i | 0 <= i < |s| - k ensures a[i] == b[i] {
      assert a[i] == LowerChar(s[k + i]);
      assert b[i] == LowerChar(s[k..][i]);
    }
    assert a == b;
  }

  /** Lower-casing commutes with keeping a prefix. */
  lemma LowerPrefix(s: string, k: nat)
    requires k <= |s|
    ensures Lower(s)[..k] == Lower(s[..k])
  {
    var a, b := Lower(s)[..k], Lower(s[..k]);
    forall i | 0 <= i < k ensures a[i] == b[i] {
      assert a[i] == LowerChar(s[i]);
      assert b[i] == LowerChar(s[..k][i]);
    }
    assert a == b;
  }

  /** The leading spaces of a string are exactly its first `k` characters
      when those are spaces and the next one is not. */
  lemma {:induction false} TrimStartAt(x: string, k: nat)
    requires k <= |x| && (k < |x| ==> !IsPySpace(x[k]))
    requires forall i :: 0 <= i < k ==> IsPySpace(x[i])
    ensures TrimStart(x, IsPySpace) == x[k..]
    decreases k
  {
    if k > 0 {
      assert IsPySpace(x[0]);
      TrimStartAt(x[1..], k - 1);
      assert x[1..][k - 1..] == x[k..];
    }
  }

  /** The trailing spaces are exactly the characters from `k` on when those
      are spaces and the one before is not. */
  lemma {:induction false} TrimEndAt(x: string, k: nat)
    requires k <= |x| && (0 < k ==> !IsPySpace(x[k - 1]))
    requires forall i :: k <= i < |x| ==> IsPySpace(x[i])
    ensures TrimEnd(x, IsPySpace) == x[..k]
    decreases |x| - k
  {
    if k < |x| {
      var n := |x| - 1;
      assert IsPySpace(x[n]);
      TrimEndAt(x[..n], k);
      assert x[..n][..k] == x[..k];
    }
  }

  /** Lowercasing keeps every position's whitespace-ness. */
  lemma LowerSpaces(s: string)
    ensures forall i :: 0 <= i < |s| ==> (IsPySpace(Lower(s)[i]) <==> IsPySpace(s[i]))
  {
    forall i | 0 <= i < |s| ensures IsPySpace(Lower(s)[i]) <==> IsPySpace(s[i]) {
      LowerKeepsSpace(s[i]);
    }
  }

  /** The leading spaces of `s` are its first `k` characters. */
  lemma TrimStartCount(s: string) returns (k: nat)
    ensures k <= |s| && (k < |s| ==> !IsPySpace(s[k]))
    ensures forall i :: 0 <= i < k ==> IsPySpace(s[i])
    ensures TrimStart(s, IsPySpace) == s[k..]
  {
    var t := TrimStart(s, IsPySpace);
    k := |s| - |t|;
    assert k < |s| ==> t[0] == s[k];
  }

  lemma TrimStartLower(s: string)
    ensures TrimStart(Lower(s), IsPySpace) == Lower(TrimStart(s, IsPySpace))
  {
    var k := TrimStartCount(s);
    LowerSpaces(s);
    TrimStartAt(Lower(s), k);
    LowerSuffix(s, k);
  }

  lemma TrimEndLower(s: string)
    ensures TrimEnd(Lower(s), IsPySpace) == Lower(TrimEnd(s, IsPySpace))
  {
    var t := TrimEnd(s, IsPySpace);
    var k := |t|;
    LowerSpaces(s);
    assert 0 < k ==> t[k - 1] == s[k - 1];
    TrimEndAt(Lower(s), k);
    LowerPrefix(s, k);
  }

  /** Labels that differ only in the case of ASCII letters get the same slug. */
  lemma SlugifyIgnoresCase(a: string, b: string)
    requires Lower(a) == Lower(b)
    ensures Slugify(a) == Slugify(b)
  {
    LowerPyStrip(a);
    LowerPyStrip(b);
  }

  lemma LowerPyStrip(s: string)
    ensures Lower(PyStrip(s)) == PyStrip(Lower(s))
  {
    TrimStartLower(s);
    TrimEndLower(TrimStart(s, IsPySpace));
  }

  /** A run of whitespace inside a label counts as one separator. */
  lemma SlugCollapsesSpaces()
    ensures Slugify("A  b") == "a_b"
  {
    TrimNoEdgeSpace("A  b", IsPySpace);
    LowerSpaced();
    DeleteNothing();
    CollapseSpaced();
  }

  lemma LowerSpaced() ensures Lower("A  b") == "a  b" { }
  lemma DeleteNothing() ensures DeleteOthers("a  b") == "a  b" { }
  lemma CollapseSpaced() ensures Collapse("a  b") == "a_b" { assert DropSeps(" b") == "b"; }

  /** Punctuation at the start of a label is deleted only after stripping,
      so the space behind it survives as a leading "_". */
  lemma SlugKeepsGuardedSpace()
    ensures Slugify("! a") == "_a"
  {
    TrimNoEdgeSpace("! a", IsPySpace);
    LowerGuarded();
    DeleteGuard();
    CollapseGuarded();
  }

  lemma LowerGuarded() ensures Lower("! a") == "! a" { }
  lemma DeleteGuard() ensures DeleteOthers("! a") == " a" { }
  lemma CollapseGuarded() ensures Collapse(" a") == "_a" { assert DropSeps("a") == "a"; }

  /** The tag id scheme: `group_id:slug`. */
  function TagId(groupId: string, text: string): string {
    groupId + ":" + Slugify(text)
  }

  /** The response of `ensure_tag` (`text` is its `label`). */
  datatype Ensured = Ensured(id: string, text: string, groupId: string, created: bool)

  /** The `INSERT OR IGNORE` of `ensure_tag`: a new id gets a row with the
      label, the group as its category, usage count 0 and no last use. */
  method InsertOrIgnore(db: Db, id: string, text: string, groupId: string)
    modifies db
    ensures id in db.tags
    ensures id in old(db.tags) ==> db.tags == old(db.tags)
    ensures id !in old(db.tags) ==> db.tags == old(db.tags)[id := TagRow(text, groupId, groupId, 0, None)]
    ensures db.content == old(db.content) && db.groups == old(db.groups)
    ensures db.contentTags == old(db.contentTags) && db.previews == old(db.previews)
  {
    if id !in db.tags {
      db.tags := db.tags[id := TagRow(text, groupId, groupId, 0, None)];
    }
  }

  /** `SELECT COUNT(*) FROM tag WHERE id = ?` on a table keyed by id. */
  function CountId(tags: map<string, TagRow>, id: string): (n: nat)
    ensures n <= 1 && (n == 1 <==> id in tags)
  {
    if id in tags then 1 else 0
  }

  /** `ensure_tag`: insert the tag unless its id exists, then report it. The
      response echoes the requested label, and `created` is true whether or
      not the row was new, because the row exists after the insert. */
  method EnsureTag(db: Db, groupId: string, text: string) returns (r: Ensured)
    modifies db
    ensures r.id == TagId(groupId, text) && r.text == text && r.groupId == groupId && r.created
    ensures r.id in old(db.tags) ==> db.tags == old(db.tags)
    ensures r.id !in old(db.tags) ==> db.tags == old(db.tags)[r.id := TagRow(text, groupId, groupId, 0, None)]
    ensures db.content == old(db.content) && db.groups == old(db.groups)
    ensures db.contentTags == old(db.contentTags) && db.previews == old(db.previews)
  {
    var id := TagId(groupId, text);
    InsertOrIgnore(db, id, text, groupId);
    var count := CountId(db.tags, id);
    return Ensured(id, text, groupId, count == 1);
  }

  /** A label and the same label in another case have one id, so ensuring
      the second after the first finds the first row and stores nothing. */
  lemma EnsureCaseInsensitive(tags: map<string, TagRow>, groupId: string, a: string, b: string)
    requires Lower(a) == Lower(b)
    ensures TagId(groupId, a) == TagId(groupId, b)
  {
    SlugifyIgnoresCase(a, b);
  }
}
