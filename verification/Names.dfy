/** The naming rules of internal/spec/names.go and the well-formedness of stable IDs. */
module Names {
  import opened Text

  const GO_KEYWORDS: set<string> := {
    "break", "case", "chan", "const", "continue", "default", "defer", "else", "fallthrough",
    "for", "func", "go", "goto", "if", "import", "interface", "map", "package", "range",
    "return", "select", "struct", "switch", "type", "var"
  }

  /** Symbols gorm.Model and the generated TableName method already occupy. */
  const RESERVED_MODEL_SYMBOLS: set<string> :=
    {"Model", "ID", "CreatedAt", "UpdatedAt", "DeletedAt", "TableName"}

  const RESERVED_STORAGE_NAMES: set<string> := {"id", "created_at", "updated_at", "deleted_at"}

  predicate IsReservedCodeName(name: string) { name in RESERVED_MODEL_SYMBOLS }

  predicate IsReservedStorageName(name: string) { name in RESERVED_STORAGE_NAMES }

  predicate IdentChar(c: char) { Alnum(c) || c == '_' }

  predicate IsExportedGoIdent(name: string) {
    && name != ""
    && name !in GO_KEYWORDS
    && Upper(name[0])
    && forall i :: 0 <= i < |name| ==> IdentChar(name[i])
  }

  predicate WordChar(c: char, sep: char) { Lower(c) || Digit(c) || c == sep }

  /** Lower-case words joined by single separators, starting with a letter. */
  predicate JoinedWords(name: string, sep: char) {
    && name != ""
    && Lower(name[0])
    && name[|name| - 1] != sep
    && (forall i :: 0 <= i < |name| ==> WordChar(name[i], sep))
    && (forall i :: 0 <= i < |name| - 1 ==> name[i] != sep || name[i + 1] != sep)
  }

  predicate IsStorageName(name: string) { JoinedWords(name, '_') && |name| <= 63 }

  predicate IsSlug(value: string) { JoinedWords(value, '-') && |value| <= 63 }

  /** The runes with the White_Space property, which strings.TrimSpace removes. */
  predicate IsSpace(c: char) {
    || '\t' <= c <= '\r'
    || c == ' '
    || c in "\U{0085}\U{00A0}\U{1680}\U{2028}\U{2029}\U{202F}\U{205F}\U{3000}"
    || '\U{2000}' <= c <= '\U{200A}'
  }

  /** strings.TrimSpace(s) == "" */
  predicate IsBlank(s: string) {
    forall i :: 0 <= i < |s| ==> IsSpace(s[i])
  }

  predicate HasPrefix(s: string, prefix: string) { prefix <= s }

  predicate HexDigit(c: char) { Digit(c) || 'a' <= c <= 'f' || 'A' <= c <= 'F' }

  predicate IsHexColor(s: string) {
    && (|s| == 4 || |s| == 7)
    && s[0] == '#'
    && forall i :: 1 <= i < |s| ==> HexDigit(s[i])
  }

  /** Characters a default cannot carry through a GORM struct tag. */
  predicate UnsafeInTag(c: char) { c in ";\"`\\" || c < ' ' }

  predicate IsSafeDefaultValue(value: string) {
    forall i :: 0 <= i < |value| ==> !UnsafeInTag(value[i])
  }

  predicate Signed(value: string) { value != "" && (value[0] == '+' || value[0] == '-') }

  function Unsigned(value: string): string { if Signed(value) then value[1..] else value }

  const MIN_INT64: int := -0x8000_0000_0000_0000
  const MAX_INT64: int := 0x7fff_ffff_ffff_ffff

  /** strconv.ParseInt(value, 10, 64) succeeds. */
  predicate IsInt64Literal(value: string) {
    var digits := Unsigned(value);
    && digits != ""
    && (forall i :: 0 <= i < |digits| ==> Digit(digits[i]))
    && var magnitude: int := DigitsValue(digits);
       MIN_INT64 <= (if Signed(value) && value[0] == '-' then -magnitude else magnitude) <= MAX_INT64
  }

  /** An optional sign, then digits with at most one point among them, at least one digit. */
  predicate IsDecimalLiteral(value: string) {
    var body := Unsigned(value);
    && (forall i :: 0 <= i < |body| ==> Digit(body[i]) || body[i] == '.')
    && (forall i, j :: 0 <= i < j < |body| ==> body[i] != '.' || body[j] != '.')
    && (exists i :: 0 <= i < |body| && Digit(body[i]))
  }

  /** The scanning loop of isDecimalLiteral decides exactly that grammar. */
  method ScanDecimalLiteral(value: string) returns (ok: bool)
    ensures ok == IsDecimalLiteral(value)
  {
    if value == "" {
      return false;
    }
    var index := 0;
    if value[0] == '+' || value[0] == '-' {
      index := 1;
    }
    ghost var start := index;
    var digits := 0;
    var seenPoint := false;
    while index < |value|
      invariant start <= index <= |value|
      invariant forall i :: start <= i < index ==> Digit(value[i]) || value[i] == '.'
      invariant forall i, j :: start <= i < j < index ==> value[i] != '.' || value[j] != '.'
      invariant seenPoint <==> exists i :: start <= i < index && value[i] == '.'
      invariant 0 <= digits
      invariant 0 < digits <==> exists i :: start <= i < index && Digit(value[i])
    {
      var c := value[index];
      if Digit(c) {
        digits := digits + 1;
      } else if c == '.' {
        if seenPoint {
          ghost var i :| start <= i < index && value[i] == '.';
          assert Unsigned(value)[i - start] == '.' && Unsigned(value)[index - start] == '.';
          return false;
        }
        seenPoint := true;
      } else {
        assert Unsigned(value)[index - start] == c;
        return false;
      }
      index := index + 1;
    }
    assert forall i :: 0 <= i < |Unsigned(value)| ==> Unsigned(value)[i] == value[start + i];
    if 0 < digits {
      ghost var i :| start <= i < index && Digit(value[i]);
      assert Digit(Unsigned(value)[i - start]);
    }
    return digits > 0;
  }

  // ----- Stable IDs (internal/spec/id.go) -----

  type ID = string

  datatype Kind =
    | KindProject | KindResource | KindField | KindRelation
    | KindPage | KindAction | KindHook | KindNav
  {
    function Prefix(): (p: string)
      ensures p != "" && forall i :: 0 <= i < |p| ==> p[i] != '_'
    {
      match this
      case KindProject => "prj"
      case KindResource => "res"
      case KindField => "fld"
      case KindRelation => "rel"
      case KindPage => "pag"
      case KindAction => "act"
      case KindHook => "hok"
      case KindNav => "nav"
    }
  }

  /** The Crockford alphabet: digits and upper-case letters without I, L, O and U. */
  const CROCKFORD: string := "0123456789ABCDEFGHJKMNPQRSTVWXYZ"

  const ULID_LEN: nat := 26

  /** A stretch of consecutive characters. */
  ghost predicate Stretch(s: string, low: char) {
    forall i :: 0 <= i < |s| ==> s[i] as int == low as int + i
  }

  lemma StretchHas(s: string, low: char, c: char)
    requires Stretch(s, low)
    ensures c in s <==> low as int <= c as int < low as int + |s|
  {
    if low as int <= c as int < low as int + |s| { assert s[c as int - low as int] == c; }
  }

  lemma CrockfordStretches()
    ensures CROCKFORD == "0123456789" + "ABCDEFGH" + "JK" + "MN" + "PQRST" + "VWXYZ"
    ensures Stretch("0123456789", '0') && Stretch("ABCDEFGH", 'A') && Stretch("JK", 'J')
    ensures Stretch("MN", 'M') && Stretch("PQRST", 'P') && Stretch("VWXYZ", 'V')
  {
  }

  /** The alphabet leaves out the letters that are easily misread, and nothing else. */
  lemma CrockfordExactly(c: char)
    ensures IsCrockford(c) <==> Digit(c) || (Upper(c) && c != 'I' && c != 'L' && c != 'O' && c != 'U')
  {
    hide Stretch;
    CrockfordStretches();
    StretchHas("0123456789", '0', c);
    StretchHas("ABCDEFGH", 'A', c);
    StretchHas("JK", 'J', c);
    StretchHas("MN", 'M', c);
    StretchHas("PQRST", 'P', c);
    StretchHas("VWXYZ", 'V', c);
  }

  predicate IsCrockford(c: char) { c in CROCKFORD }

  /** strings.Cut(s, "_"): the text around the first underscore. */
  function Cut(s: string): (r: Option<(string, string)>)
    ensures r.None? <==> forall i :: 0 <= i < |s| ==> s[i] != '_'
    ensures r.Some? ==>
      && s == r.value.0 + "_" + r.value.1
      && forall i :: 0 <= i < |r.value.0| ==> r.value.0[i] != '_'
  {
    if s == "" then None
    else if s[0] == '_' then Some(("", s[1..]))
    else
      match Cut(s[1..])
      case None => None
      case Some((before, after)) => Some(([s[0]] + before, after))
  }

  /** The prefix an ID carries, or "" when it has no underscore. */
  function PrefixOf(id: ID): string {
    match Cut(id)
    case None => ""
    case Some((prefix, _)) => prefix
  }

  predicate ValidID(id: ID, kind: Kind) {
    match Cut(id)
    case None => false
    case Some((prefix, body)) =>
      && prefix == kind.Prefix()
      && |body| == ULID_LEN
      && forall i :: 0 <= i < |body| ==> IsCrockford(body[i])
  }

  lemma {:induction false} CutUnique(before: string, after: string)
    requires forall i :: 0 <= i < |before| ==> before[i] != '_'
    ensures Cut(before + "_" + after) == Some((before, after))
  {
    var s := before + "_" + after;
    if before == "" {
      assert s == "_" + after;
      assert s[1..] == after;
    } else {
      CutUnique(before[1..], after);
      assert s[1..] == before[1..] + "_" + after;
      assert [before[0]] + before[1..] == before;
    }
  }

  /** An ID is well formed for a kind exactly when it is that kind's prefix, an underscore
      and 26 Crockford characters; so one ID is never well formed for two kinds. */
  lemma ValidIDShape(id: ID, kind: Kind)
    ensures ValidID(id, kind) <==>
      exists body: string {:trigger kind.Prefix() + "_" + body} ::
        && id == kind.Prefix() + "_" + body
        && |body| == ULID_LEN
        && forall i :: 0 <= i < |body| ==> IsCrockford(body[i])
    ensures ValidID(id, kind) ==> PrefixOf(id) == kind.Prefix()
  {
    forall body: string | id == kind.Prefix() + "_" + body
      ensures Cut(id) == Some((kind.Prefix(), body))
    {
      CutUnique(kind.Prefix(), body);
    }
    if ValidID(id, kind) {
      var body := Cut(id).value.1;
      assert id == kind.Prefix() + "_" + body;
    }
  }
}
