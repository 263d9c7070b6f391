/** The name of a tenant's storage namespace. The API writes "tenant_" followed
    by the tenant id with every UTF-16 code unit outside [a-zA-Z0-9] replaced
    by '_' (a JavaScript string is a sequence of UTF-16 code units, and the
    regular expression has no `u` flag). The name goes into the SQL text
    unquoted, so PostgreSQL folds it to lower case and cuts it to 63
    characters: that folded name is the schema that actually exists. */
module TenantSchema {

  const SchemaPrefix := "tenant_"

  /** PostgreSQL's limit on the length of an identifier (NAMEDATALEN - 1). */
  const MaxIdentifierLength: nat := 63

  /** One UTF-16 code unit. */
  type CodeUnit = u: int | 0 <= u < 0x1_0000

  /** The UTF-16 encoding of one character: itself when it lies in the Basic
      Multilingual Plane, otherwise a surrogate pair. */
  function EncodeChar(c: char): (units: seq<CodeUnit>)
    ensures c as int < 0x1_0000 ==> units == [c as int]
    ensures c as int >= 0x1_0000 ==>
              |units| == 2 && 0xD800 <= units[0] < 0xDC00 && 0xDC00 <= units[1] < 0xE000
  {
    if c as int < 0x1_0000 then [c as int]
    else
      var v := c as int - 0x1_0000;
      [0xD800 + v / 0x400, 0xDC00 + v % 0x400]
  }

  /** The UTF-16 code units of a string, as JavaScript sees it. */
  function Utf16(s: string): (units: seq<CodeUnit>)
    ensures |units| >= |s|
  {
    if s == [] then [] else EncodeChar(s[0]) + Utf16(s[1..])
  }

  /** Without characters beyond the Basic Multilingual Plane, a string's
      code units are its characters. */
  lemma {:induction false} Utf16OfBmp(s: string)
    requires forall i :: 0 <= i < |s| ==> s[i] as int < 0x1_0000
    ensures |Utf16(s)| == |s|
    ensures forall i :: 0 <= i < |s| ==> Utf16(s)[i] == s[i] as int
  {
    if s != [] {
      Utf16OfBmp(s[1..]);
    }
  }

  predicate IsAlphanumeric(c: char) {
    ('a' <= c <= 'z') || ('A' <= c <= 'Z') || ('0' <= c <= '9')
  }

  /** A code unit the regular expression leaves alone: [a-zA-Z0-9]. */
  predicate IsAlphanumericUnit(u: CodeUnit) {
    ('a' as int <= u <= 'z' as int) || ('A' as int <= u <= 'Z' as int) || ('0' as int <= u <= '9' as int)
  }

  /** The characters a derived schema name can contain. */
  predicate IsSchemaChar(c: char) {
    IsAlphanumeric(c) || c == '_'
  }

  /** One position of the global replace: an alphanumeric stays, anything
      else (a surrogate half included) becomes '_'. */
  function SanitizeUnit(u: CodeUnit): (d: char)
    ensures IsSchemaChar(d)
    ensures IsAlphanumericUnit(u) ==> d as int == u
    ensures !IsAlphanumericUnit(u) ==> d == '_'
  {
    if IsAlphanumericUnit(u) then u as char else '_'
  }

  /** The global replace of /[^a-zA-Z0-9]/ by "_", one code unit at a time. */
  function Sanitize(units: seq<CodeUnit>): (r: string)
    ensures |r| == |units|
    ensures forall i :: 0 <= i < |r| ==> IsSchemaChar(r[i])
    ensures forall i :: 0 <= i < |units| && IsAlphanumericUnit(units[i]) ==> r[i] as int == units[i]
    ensures forall i :: 0 <= i < |units| && !IsAlphanumericUnit(units[i]) ==> r[i] == '_'
  {
    seq(|units|, i requires 0 <= i < |units| => SanitizeUnit(units[i]))
  }

  /** The schema name the API writes into its SQL for a tenant. */
  function SchemaName(tenantId: string): (name: string)
    ensures |name| == |SchemaPrefix| + |Utf16(tenantId)|
    ensures name[..|SchemaPrefix|] == SchemaPrefix
    ensures forall i :: 0 <= i < |name| ==> IsSchemaChar(name[i])
    ensures forall i :: 0 <= i < |Utf16(tenantId)| && IsAlphanumericUnit(Utf16(tenantId)[i]) ==>
              name[|SchemaPrefix| + i] as int == Utf16(tenantId)[i]
    ensures forall i :: 0 <= i < |Utf16(tenantId)| && !IsAlphanumericUnit(Utf16(tenantId)[i]) ==>
              name[|SchemaPrefix| + i] == '_'
  {
    SchemaPrefix + Sanitize(Utf16(tenantId))
  }

  /** Sanitising the code units of an already sanitised name changes nothing. */
  lemma SanitizeIdempotent(units: seq<CodeUnit>)
    ensures Sanitize(Utf16(Sanitize(units))) == Sanitize(units)
  {
    var r := Sanitize(units);
    Utf16OfBmp(r);
    assert Sanitize(Utf16(r)) == r by {
      forall i | 0 <= i < |r| ensures Sanitize(Utf16(r))[i] == r[i] {
        assert Utf16(r)[i] == r[i] as int;
      }
    }
  }

  /** Equal sanitised names come from units that agree wherever either is
      alphanumeric. */
  lemma EqualSanitizedAgree(us: seq<CodeUnit>, ut: seq<CodeUnit>)
    requires Sanitize(us) == Sanitize(ut)
    ensures |us| == |ut|
    ensures forall i :: 0 <= i < |us| && (IsAlphanumericUnit(us[i]) || IsAlphanumericUnit(ut[i])) ==> us[i] == ut[i]
  {
    forall i | 0 <= i < |us| && (IsAlphanumericUnit(us[i]) || IsAlphanumericUnit(ut[i]))
      ensures us[i] == ut[i]
    {
      assert Sanitize(us)[i] == SanitizeUnit(us[i]) && Sanitize(ut)[i] == SanitizeUnit(ut[i]);
    }
  }

  /** Equal written names agree at every unit where either id is alphanumeric. */
  lemma EqualNamesAgree(s: string, t: string)
    requires SchemaName(s) == SchemaName(t)
    ensures |Utf16(s)| == |Utf16(t)|
    ensures forall i :: 0 <= i < |Utf16(s)| && (IsAlphanumericUnit(Utf16(s)[i]) || IsAlphanumericUnit(Utf16(t)[i])) ==>
              Utf16(s)[i] == Utf16(t)[i]
  {
    var p := |SchemaPrefix|;
    assert SchemaName(s)[p..] == Sanitize(Utf16(s));
    assert SchemaName(t)[p..] == Sanitize(Utf16(t));
    EqualSanitizedAgree(Utf16(s), Utf16(t));
  }

  /** Two tenant ids get the same schema name text exactly when they have as
      many code units and agree at every unit where either is alphanumeric. */
  lemma SchemaNameCollision(s: string, t: string)
    ensures SchemaName(s) == SchemaName(t) <==>
              |Utf16(s)| == |Utf16(t)| &&
              forall i :: 0 <= i < |Utf16(s)| && (IsAlphanumericUnit(Utf16(s)[i]) || IsAlphanumericUnit(Utf16(t)[i])) ==>
                Utf16(s)[i] == Utf16(t)[i]
  {
    var us, ut := Utf16(s), Utf16(t);
    if SchemaName(s) == SchemaName(t) {
      EqualNamesAgree(s, t);
    }
    if |us| == |ut| && forall i :: 0 <= i < |us| && (IsAlphanumericUnit(us[i]) || IsAlphanumericUnit(ut[i])) ==> us[i] == ut[i] {
      assert Sanitize(us) == Sanitize(ut) by {
        forall i | 0 <= i < |us| ensures Sanitize(us)[i] == Sanitize(ut)[i] {
        }
      }
      assert SchemaName(s) == SchemaPrefix + Sanitize(us);
    }
  }

  /** The derivation is not injective: "a-b" and "a.b" share tenant_a_b. */
  lemma SchemaNameNotInjective()
    ensures SchemaName("a-b") == SchemaName("a.b") == "tenant_a_b"
  {
    Utf16OfBmp("a-b");
    Utf16OfBmp("a.b");
    SchemaNameCollision("a-b", "a.b");
    assert Sanitize(Utf16("a-b")) == "a_b";
  }

  /** A character beyond the Basic Multilingual Plane is two code units, so
      it becomes two underscores. */
  lemma AstralCharacterBecomesTwoUnderscores()
    ensures SchemaName("\U{1F600}") == "tenant___"
  {
    assert Utf16("\U{1F600}") == EncodeChar('\U{1F600}');
  }

  predicate IsUpper(c: char) {
    'A' <= c <= 'Z'
  }

  /** PostgreSQL's folding of an unquoted identifier character. */
  function FoldChar(c: char): (d: char)
    ensures !IsUpper(d)
    ensures !IsUpper(c) ==> d == c
    ensures IsUpper(c) ==> d as int == c as int + 32
  {
    if IsUpper(c) then (c as int + 32) as char else c
  }

  function FoldCase(s: string): (r: string)
    ensures |r| == |s|
    ensures forall i :: 0 <= i < |s| ==> r[i] == FoldChar(s[i])
  {
    seq(|s|, i requires 0 <= i < |s| => FoldChar(s[i]))
  }

  /** A name PostgreSQL keeps as written: no upper-case letter and at most 63 characters. */
  predicate IsFoldedName(name: string) {
    |name| <= MaxIdentifierLength && forall i :: 0 <= i < |name| ==> !IsUpper(name[i])
  }

  /** The schema that the API's unquoted `tenant_<...>` actually names:
      folded to lower case and cut to 63 characters. */
  function StorageName(tenantId: string): (name: string)
    ensures IsFoldedName(name)
    ensures forall i :: 0 <= i < |name| ==> IsSchemaChar(name[i])
    ensures |name| == if |SchemaName(tenantId)| <= MaxIdentifierLength then |SchemaName(tenantId)| else MaxIdentifierLength
    ensures forall i :: 0 <= i < |name| ==> name[i] == FoldChar(SchemaName(tenantId)[i])
    ensures name == SchemaName(tenantId) <==> IsFoldedName(SchemaName(tenantId))
  {
    var folded := FoldCase(SchemaName(tenantId));
    var name := if |folded| <= MaxIdentifierLength then folded else folded[..MaxIdentifierLength];
    assert IsFoldedName(SchemaName(tenantId)) ==> name == SchemaName(tenantId);
    name
  }

  /** An id made of ASCII letters and digits appears in its schema name unchanged. */
  lemma SchemaNameOfAlphanumeric(id: string)
    requires forall i :: 0 <= i < |id| ==> IsAlphanumeric(id[i])
    ensures SchemaName(id) == SchemaPrefix + id
  {
    Utf16OfBmp(id);
    assert Sanitize(Utf16(id)) == id by {
      forall i | 0 <= i < |id| ensures Sanitize(Utf16(id))[i] == id[i] {
        assert IsAlphanumericUnit(Utf16(id)[i]);
      }
    }
  }

  lemma FoldCaseAppend(a: string, b: string)
    ensures FoldCase(a + b) == FoldCase(a) + FoldCase(b)
  {
    var l, r := FoldCase(a + b), FoldCase(a) + FoldCase(b);
    forall i | 0 <= i < |l| ensures l[i] == r[i] {
      if i < |a| {
        assert (a + b)[i] == a[i];
      } else {
        assert (a + b)[i] == b[i - |a|];
      }
    }
  }

  /** The prefix has no upper-case letter, so folding leaves it alone. */
  lemma FoldPrefix()
    ensures FoldCase(SchemaPrefix) == SchemaPrefix
  {
    var f := FoldCase(SchemaPrefix);
    assert f[0] == 't' && f[1] == 'e' && f[2] == 'n' && f[3] == 'a';
    assert f[4] == 'n' && f[5] == 't' && f[6] == '_';
  }

  /** A short alphanumeric id lives in the schema named by its lower-cased form. */
  lemma StorageNameOfAlphanumeric(id: string)
    requires forall i :: 0 <= i < |id| ==> IsAlphanumeric(id[i])
    requires |SchemaPrefix| + |id| <= MaxIdentifierLength
    ensures StorageName(id) == SchemaPrefix + FoldCase(id)
  {
    SchemaNameOfAlphanumeric(id);
    FoldCaseAppend(SchemaPrefix, id);
    FoldPrefix();
  }

  /** Folding an alphanumeric string keeps it alphanumeric, and folding twice
      is folding once. */
  lemma FoldCaseOfAlphanumeric(id: string)
    requires forall i :: 0 <= i < |id| ==> IsAlphanumeric(id[i])
    ensures forall i :: 0 <= i < |FoldCase(id)| ==> IsAlphanumeric(FoldCase(id)[i])
    ensures FoldCase(FoldCase(id)) == FoldCase(id)
  {
  }

  /** The written names of an alphanumeric id and of its lower-cased form
      differ exactly when the id has an upper-case letter. */
  lemma CaseVariantNamesDiffer(id: string)
    requires forall i :: 0 <= i < |id| ==> IsAlphanumeric(id[i])
    ensures SchemaName(id) == SchemaName(FoldCase(id)) <==> forall i :: 0 <= i < |id| ==> !IsUpper(id[i])
  {
    FoldCaseOfAlphanumeric(id);
    var lower := FoldCase(id);
    SchemaNameOfAlphanumeric(id);
    SchemaNameOfAlphanumeric(lower);
    if SchemaName(id) == SchemaName(lower) {
      forall i | 0 <= i < |id| ensures !IsUpper(id[i]) {
        assert SchemaName(id)[|SchemaPrefix| + i] == id[i];
        assert SchemaName(lower)[|SchemaPrefix| + i] == lower[i];
      }
    }
    if forall i :: 0 <= i < |id| ==> !IsUpper(id[i]) {
      assert id == lower;
    }
  }

  /** PostgreSQL's folding of one UTF-16 code unit of an ASCII letter. */
  function FoldUnit(u: CodeUnit): (v: CodeUnit)
    ensures IsAlphanumericUnit(v) <==> IsAlphanumericUnit(u)
    ensures IsAlphanumericUnit(u) ==> v as char == FoldChar(u as char)
    ensures u >= 0x80 ==> v == u
  {
    if 'A' as int <= u <= 'Z' as int then u + 32 else u
  }

  /** Folding a character and then encoding it is encoding it and then
      folding each unit. */
  lemma EncodeFoldChar(c: char)
    ensures |EncodeChar(FoldChar(c))| == |EncodeChar(c)|
    ensures forall i :: 0 <= i < |EncodeChar(c)| ==> EncodeChar(FoldChar(c))[i] == FoldUnit(EncodeChar(c)[i])
  {
    if c as int >= 0x1_0000 {
      assert FoldChar(c) == c;
    }
  }

  /** The code units of a folded string are the folded code units. */
  lemma {:induction false} Utf16OfFoldCase(s: string)
    ensures |Utf16(FoldCase(s))| == |Utf16(s)|
    ensures forall i :: 0 <= i < |Utf16(s)| ==> Utf16(FoldCase(s))[i] == FoldUnit(Utf16(s)[i])
  {
    if s != [] {
      var f := FoldCase(s);
      assert f[1..] == FoldCase(s[1..]);
      Utf16OfFoldCase(s[1..]);
      EncodeFoldChar(s[0]);
      var e, ef := EncodeChar(s[0]), EncodeChar(f[0]);
      var rest, frest := Utf16(s[1..]), Utf16(f[1..]);
      assert Utf16(s) == e + rest;
      assert Utf16(f) == ef + frest;
      forall i | 0 <= i < |Utf16(s)| ensures Utf16(f)[i] == FoldUnit(Utf16(s)[i]) {
        if i < |e| {
          assert Utf16(f)[i] == ef[i] && Utf16(s)[i] == e[i];
        } else {
          assert Utf16(f)[i] == frest[i - |e|] && Utf16(s)[i] == rest[i - |e|];
        }
      }
    }
  }

  /** Sanitising folded code units is folding the sanitised name. */
  lemma SanitizeOfFolded(us: seq<CodeUnit>, vs: seq<CodeUnit>)
    requires |vs| == |us| && forall i :: 0 <= i < |us| ==> vs[i] == FoldUnit(us[i])
    ensures Sanitize(vs) == FoldCase(Sanitize(us))
  {
    forall i | 0 <= i < |us| ensures Sanitize(vs)[i] == FoldCase(Sanitize(us))[i] {
      if IsAlphanumericUnit(us[i]) {
        assert Sanitize(us)[i] == us[i] as char;
      }
    }
  }

  /** The name written for the lower-cased id is the folded written name. */
  lemma SchemaNameOfFoldCase(id: string)
    ensures SchemaName(FoldCase(id)) == FoldCase(SchemaName(id))
  {
    Utf16OfFoldCase(id);
    SanitizeOfFolded(Utf16(id), Utf16(FoldCase(id)));
    FoldCaseAppend(SchemaPrefix, Sanitize(Utf16(id)));
    FoldPrefix();
  }

  /** Ids that differ only in the case of ASCII letters share one schema. */
  lemma CaseVariantsShareStorage(id: string)
    ensures StorageName(id) == StorageName(FoldCase(id))
  {
    SchemaNameOfFoldCase(id);
    var a, b := StorageName(id), StorageName(FoldCase(id));
    assert |SchemaName(FoldCase(id))| == |SchemaName(id)|;
    forall i | 0 <= i < |a| ensures a[i] == b[i] {
      assert SchemaName(FoldCase(id))[i] == FoldChar(SchemaName(id)[i]);
    }
  }

  lemma {:induction false} Utf16Append(a: string, b: string)
    ensures Utf16(a + b) == Utf16(a) + Utf16(b)
  {
    if a == [] {
      assert a + b == b;
    } else {
      assert (a + b)[0] == a[0] && (a + b)[1..] == a[1..] + b;
      Utf16Append(a[1..], b);
    }
  }

  lemma SanitizeAppend(us: seq<CodeUnit>, vs: seq<CodeUnit>)
    ensures Sanitize(us + vs) == Sanitize(us) + Sanitize(vs)
  {
    var l, r := Sanitize(us + vs), Sanitize(us) + Sanitize(vs);
    forall i | 0 <= i < |l| ensures l[i] == r[i] {
      if i < |us| {
        assert (us + vs)[i] == us[i];
      } else {
        assert (us + vs)[i] == vs[i - |us|];
      }
    }
  }

  /** The name the existence check of GET /api/messages looks up: the
      written name, cut to 63 characters as a `name` value is, and not
      folded. It is the schema's name exactly when it has no upper-case
      letter. */
  function LookupName(tenantId: string): (key: string)
    ensures key <= SchemaName(tenantId)
    ensures |key| == if |SchemaName(tenantId)| <= MaxIdentifierLength then |SchemaName(tenantId)| else MaxIdentifierLength
    ensures StorageName(tenantId) == FoldCase(key)
    ensures key == StorageName(tenantId) <==> IsFoldedName(key)
  {
    var written := SchemaName(tenantId);
    var key := if |written| <= MaxIdentifierLength then written else written[..MaxIdentifierLength];
    assert StorageName(tenantId) == FoldCase(key);
    key
  }

  /** The written name of a longer id extends the written name of its start. */
  lemma SchemaNameAppend(id: string, a: string)
    ensures SchemaName(id + a) == SchemaName(id) + Sanitize(Utf16(a))
  {
    Utf16Append(id, a);
    SanitizeAppend(Utf16(id), Utf16(a));
    assert SchemaName(id + a) == SchemaPrefix + (Sanitize(Utf16(id)) + Sanitize(Utf16(a)));
  }

  /** Once the written name of an id reaches 63 characters, a longer id
      starting with it looks up the same name. */
  lemma LookupNameOfExtension(id: string, a: string)
    requires |SchemaPrefix| + |Utf16(id)| >= MaxIdentifierLength
    ensures LookupName(id + a) == LookupName(id)
  {
    SchemaNameAppend(id, a);
    assert SchemaName(id + a)[..MaxIdentifierLength] == SchemaName(id)[..MaxIdentifierLength];
  }

  /** Once the written name of an id reaches 63 characters, whatever text
      follows it in a longer id names the same schema. */
  lemma TrailingTextShareStorage(id: string, a: string, b: string)
    requires |SchemaPrefix| + |Utf16(id)| >= MaxIdentifierLength
    ensures StorageName(id + a) == StorageName(id + b)
  {
    LookupNameOfExtension(id, a);
    LookupNameOfExtension(id, b);
  }

  /** An alphanumeric id with an upper-case letter among its first 56
      characters writes a name, and looks up a name, that PostgreSQL does
      not keep as written. */
  lemma UpperCaseIdIsNotFolded(id: string, k: nat)
    requires forall i :: 0 <= i < |id| ==> IsAlphanumeric(id[i])
    requires k < |id| && IsUpper(id[k])
    requires |SchemaPrefix| + k < MaxIdentifierLength
    ensures !IsFoldedName(SchemaName(id))
    ensures !IsFoldedName(LookupName(id))
  {
    SchemaNameOfAlphanumeric(id);
    assert SchemaName(id)[|SchemaPrefix| + k] == id[k];
    assert LookupName(id)[|SchemaPrefix| + k] == id[k];
  }
}
