/**
 * Cleaning of imported rows before they are stored (`clean_row_data`) and the
 * diagnostic scan for suspicious text (`find_suspicious_escapes`).
 */
module RowCleaning {
  import opened Text
  import opened Entities

  /**
   * A character that cleaning removes: NUL, the byte-order mark, the three
   * zero-width characters U+200B..U+200D, and every control character that is
   * not whitespace.
   */
  predicate Invisible(c: char) {
    || c == '\0' || c == '\U{FEFF}'
    || ('\U{200B}' <= c <= '\U{200D}')
    || (IsControl(c) && !IsWhitespace(c))
  }

  /** Text that cleaning leaves alone: trimmed and free of invisible characters. */
  predicate IsClean(s: string) {
    IsTrimmed(s) && forall c | c in s :: !Invisible(c)
  }

  /** `s` with every `c` removed. */
  function RemoveChar(s: string, c: char): (r: string)
    ensures c !in r
    ensures forall x | x in r :: x in s
    ensures c !in s ==> r == s
  {
    if s == [] then []
    else if s[0] == c then RemoveChar(s[1..], c)
    else [s[0]] + RemoveChar(s[1..], c)
  }

  /** `str::replace(c, "")` removes exactly the occurrences of `c`. */
  lemma {:induction false} ReplaceCharRemoves(s: string, c: char)
    ensures ReplaceAll(s, [c], []) == RemoveChar(s, c)
  {
    if s != [] {
      ReplaceCharRemoves(s[1..], c);
      if s[0] == c {
        ReplaceAllHit(s, [c], []);
        assert s[|[c]|..] == s[1..];
      } else {
        ReplaceAllMiss(s, [c], []);
      }
    }
  }

  /** The `.filter(|c| !c.is_control() || c.is_whitespace())` step. */
  function DropControls(s: string): (r: string)
    ensures forall x | x in r :: x in s && !(IsControl(x) && !IsWhitespace(x))
  {
    if s == [] then []
    else if IsControl(s[0]) && !IsWhitespace(s[0]) then DropControls(s[1..])
    else [s[0]] + DropControls(s[1..])
  }

  /** The character pipeline of `clean_row_data` as written there. */
  function StripInvisible(s: string): string {
    var a := ReplaceAll(s, ['\0'], []);
    var b := ReplaceAll(a, ['\U{FEFF}'], []);
    var c := ReplaceAll(b, ['\U{200B}'], []);
    var d := ReplaceAll(c, ['\U{200C}'], []);
    var e := ReplaceAll(d, ['\U{200D}'], []);
    DropControls(e)
  }

  /** The characters of `s` that are not invisible, in order. */
  function KeepVisible(s: string): (r: string)
    ensures forall x | x in r :: x in s && !Invisible(x)
    ensures (forall x | x in s :: !Invisible(x)) ==> r == s
  {
    if s == [] then []
    else if Invisible(s[0]) then KeepVisible(s[1..])
    else [s[0]] + KeepVisible(s[1..])
  }

  /** The five removals followed by the control filter, on `RemoveChar`. */
  function Pipeline(s: string): string {
    DropControls(RemoveChar(RemoveChar(RemoveChar(RemoveChar(RemoveChar(
      s, '\0'), '\U{FEFF}'), '\U{200B}'), '\U{200C}'), '\U{200D}'))
  }

  lemma {:induction false} RemoveCharConcat(a: string, b: string, c: char)
    ensures RemoveChar(a + b, c) == RemoveChar(a, c) + RemoveChar(b, c)
  {
    if a == [] {
      assert a + b == b;
    } else {
      assert (a + b)[1..] == a[1..] + b;
      RemoveCharConcat(a[1..], b, c);
    }
  }

  lemma {:induction false} DropControlsConcat(a: string, b: string)
    ensures DropControls(a + b) == DropControls(a) + DropControls(b)
  {
    if a == [] {
      assert a + b == b;
    } else {
      assert (a + b)[1..] == a[1..] + b;
      DropControlsConcat(a[1..], b);
    }
  }

  lemma PipelineCons(s: string)
    requires s != []
    ensures Pipeline(s) == Pipeline([s[0]]) + Pipeline(s[1..])
  {
    var x, t := [s[0]], s[1..];
    assert s == x + t;
    RemoveCharConcat(x, t, '\0');
    var x1, t1 := RemoveChar(x, '\0'), RemoveChar(t, '\0');
    RemoveCharConcat(x1, t1, '\U{FEFF}');
    var x2, t2 := RemoveChar(x1, '\U{FEFF}'), RemoveChar(t1, '\U{FEFF}');
    RemoveCharConcat(x2, t2, '\U{200B}');
    var x3, t3 := RemoveChar(x2, '\U{200B}'), RemoveChar(t2, '\U{200B}');
    RemoveCharConcat(x3, t3, '\U{200C}');
    var x4, t4 := RemoveChar(x3, '\U{200C}'), RemoveChar(t3, '\U{200C}');
    RemoveCharConcat(x4, t4, '\U{200D}');
    DropControlsConcat(RemoveChar(x4, '\U{200D}'), RemoveChar(t4, '\U{200D}'));
  }

  lemma RemoveCharSingle(s: string, c: char)
    requires |s| <= 1
    ensures RemoveChar(s, c) == if s == [] || s[0] == c then [] else s
  {
    if s != [] {
      assert s[1..] == [];
    }
  }

  lemma DropControlsSingle(s: string)
    requires |s| <= 1
    ensures DropControls(s) == if s == [] || (IsControl(s[0]) && !IsWhitespace(s[0])) then [] else s
  {
    if s != [] {
      assert s[1..] == [];
    }
  }

  lemma PipelineChar(c: char)
    ensures Pipeline([c]) == if Invisible(c) then [] else [c]
  {
    var s1 := RemoveChar([c], '\0');
    RemoveCharSingle([c], '\0');
    var s2 := RemoveChar(s1, '\U{FEFF}');
    RemoveCharSingle(s1, '\U{FEFF}');
    var s3 := RemoveChar(s2, '\U{200B}');
    RemoveCharSingle(s2, '\U{200B}');
    var s4 := RemoveChar(s3, '\U{200C}');
    RemoveCharSingle(s3, '\U{200C}');
    var s5 := RemoveChar(s4, '\U{200D}');
    RemoveCharSingle(s4, '\U{200D}');
    DropControlsSingle(s5);
  }

  /** The five removals followed by the control filter keep exactly the visible characters. */
  lemma {:induction false} PipelineKeepsVisible(s: string)
    ensures Pipeline(s) == KeepVisible(s)
  {
    if s != [] {
      PipelineCons(s);
      PipelineChar(s[0]);
      PipelineKeepsVisible(s[1..]);
    }
  }

  lemma StripInvisibleIsKeepVisible(s: string)
    ensures StripInvisible(s) == KeepVisible(s)
  {
    var a := ReplaceAll(s, ['\0'], []);
    ReplaceCharRemoves(s, '\0');
    var b := ReplaceAll(a, ['\U{FEFF}'], []);
    ReplaceCharRemoves(a, '\U{FEFF}');
    var c := ReplaceAll(b, ['\U{200B}'], []);
    ReplaceCharRemoves(b, '\U{200B}');
    var d := ReplaceAll(c, ['\U{200C}'], []);
    ReplaceCharRemoves(c, '\U{200C}');
    ReplaceCharRemoves(d, '\U{200D}');
    PipelineKeepsVisible(s);
  }

  /**
   * Cleaning of one key or string value: invisible characters removed, then
   * trimmed. The result is clean, is built from characters of `s`, is empty
   * exactly when `s` holds nothing but invisible characters and whitespace, and
   * clean text is left unchanged.
   */
  function CleanText(s: string): (r: string)
    ensures IsClean(r)
    ensures IsClean(s) ==> r == s
  {
    Trim(KeepVisible(s))
  }

  /** Cleaning is the chain of `replace` calls and control filter of `clean_row_data`, followed by `trim`. */
  lemma CleanTextIsPipeline(s: string)
    ensures CleanText(s) == Trim(StripInvisible(s))
  {
    StripInvisibleIsKeepVisible(s);
  }

  /** Cleaning gives the empty string exactly when `s` holds only invisible characters and whitespace. */
  lemma CleanTextEmpty(s: string)
    ensures CleanText(s) == [] <==> forall c | c in s :: Invisible(c) || IsWhitespace(c)
  {
    StripInvisibleIsKeepVisible(s);
    var k := KeepVisible(s);
    if Trim(k) == [] {
      forall c | c in s ensures Invisible(c) || IsWhitespace(c) {
        if !Invisible(c) {
          KeepVisibleKeeps(s, c);
          var i :| 0 <= i < |k| && k[i] == c;
        }
      }
    } else {
      var r := Trim(k);
      assert r[0] in r;
      assert r[0] in k;
    }
  }

  /** Cleaning only removes characters: everything in the result was in `s`. */
  lemma CleanTextChars(s: string)
    ensures forall c | c in CleanText(s) :: c in s
  {
    StripInvisibleIsKeepVisible(s);
  }

  lemma {:induction false} KeepVisibleKeeps(s: string, c: char)
    requires c in s && !Invisible(c)
    ensures c in KeepVisible(s)
  {
    if s[0] != c {
      KeepVisibleKeeps(s[1..], c);
    }
  }

  /** Value cleaning: strings are cleaned, every other value passes through. */
  function CleanValue(v: Value): (r: Value)
    ensures r.Str? <==> v.Str?
    ensures r.Str? ==> IsClean(r.s)
    ensures !v.Str? ==> r == v
  {
    match v
    case Str(s) => Str(CleanText(s))
    case _ => v
  }

  /** A value that cleaning leaves alone. */
  predicate IsCleanValue(v: Value) {
    v.Str? ==> IsClean(v.s)
  }

  /**
   * `out` is a possible result of cleaning `row`: its keys are exactly the
   * non-empty cleaned keys of `row`, and each holds the cleaned value of one of
   * the keys that clean to it (which one, when several do, depends on the
   * HashMap's drain order; the last one drained wins).
   */
  predicate IsCleaningOf(row: Row, out: Row) {
    && (forall k | k in out :: k != [] && exists k0 | k0 in row :: CleanText(k0) == k && out[k] == CleanValue(row[k0]))
    && (forall k0 | k0 in row :: CleanText(k0) != [] ==> CleanText(k0) in out)
  }

  /** A row that cleaning leaves alone. */
  predicate IsCleanRow(row: Row) {
    forall k | k in row :: k != [] && IsClean(k) && IsCleanValue(row[k])
  }

  /** `clean_row_data`: drains the row and re-inserts every entry whose key cleans to non-empty. */
  method CleanRowData(row: Row) returns (cleaned: Row)
    ensures IsCleaningOf(row, cleaned)
    ensures IsCleanRow(cleaned)
  {
    var rest := row;
    cleaned := map[];
    while rest != map[]
      invariant DrainedSoFar(row, rest, cleaned)
      decreases |rest|
    {
      var key :| key in rest;
      var value := rest[key];
      var cleanedKey := CleanText(key);
      var cleanedValue := CleanValue(value);
      var next := if cleanedKey != [] then cleaned[cleanedKey := cleanedValue] else cleaned;
      DrainStep(row, rest, cleaned, key, next);
      cleaned := next;
      rest := rest - {key};
    }
    DrainDone(row, cleaned);
  }

  /**
   * The state of the drain loop: `rest` is what is left of `row`, and `cleaned`
   * holds the cleaning of the entries already drained.
   */
  predicate DrainedSoFar(row: Row, rest: Row, cleaned: Row) {
    && rest.Keys <= row.Keys
    && (forall k | k in rest :: rest[k] == row[k])
    && (forall k | k in cleaned ::
          exists k0 | k0 in row :: k0 !in rest && CleanText(k0) == k && cleaned[k] == CleanValue(row[k0]))
    && (forall k0 | k0 in row && k0 !in rest :: CleanText(k0) != [] ==> CleanText(k0) in cleaned)
    && IsCleanRow(cleaned)
  }

  /** Draining one more entry keeps the loop state. */
  lemma DrainStep(row: Row, rest: Row, cleaned: Row, key: string, cleaned': Row)
    requires DrainedSoFar(row, rest, cleaned) && key in rest
    requires cleaned' == if CleanText(key) != [] then cleaned[CleanText(key) := CleanValue(rest[key])] else cleaned
    ensures DrainedSoFar(row, rest - {key}, cleaned')
  {
    var rest' := rest - {key};
    assert rest'.Keys <= row.Keys && forall k | k in rest' :: rest'[k] == row[k];
    DrainStepSources(row, rest, cleaned, key, cleaned');
    DrainStepTargets(row, rest, cleaned, key, cleaned');
    DrainStepClean(cleaned, key, rest[key], cleaned');
  }

  /** After one more entry, every cleaned key still comes from a drained key of `row`. */
  lemma DrainStepSources(row: Row, rest: Row, cleaned: Row, key: string, cleaned': Row)
    requires DrainedSoFar(row, rest, cleaned) && key in rest
    requires cleaned' == if CleanText(key) != [] then cleaned[CleanText(key) := CleanValue(rest[key])] else cleaned
    ensures forall k | k in cleaned' ::
      exists k0 | k0 in row :: k0 !in rest - {key} && CleanText(k0) == k && cleaned'[k] == CleanValue(row[k0])
  {
    var ck := CleanText(key);
    var rest' := rest - {key};
    forall k | k in cleaned'
      ensures exists k0 | k0 in row :: k0 !in rest' && CleanText(k0) == k && cleaned'[k] == CleanValue(row[k0])
    {
      if ck != [] && k == ck {
        assert key in row && key !in rest' && CleanText(key) == k && cleaned'[k] == CleanValue(row[key]);
      } else {
        var k0 :| k0 in row && k0 !in rest && CleanText(k0) == k && cleaned[k] == CleanValue(row[k0]);
        assert k0 !in rest' && cleaned'[k] == cleaned[k];
      }
    }
  }

  /** After one more entry, every drained key that cleans to non-empty is present. */
  lemma DrainStepTargets(row: Row, rest: Row, cleaned: Row, key: string, cleaned': Row)
    requires DrainedSoFar(row, rest, cleaned) && key in rest
    requires cleaned' == if CleanText(key) != [] then cleaned[CleanText(key) := CleanValue(rest[key])] else cleaned
    ensures forall k0 | k0 in row && k0 !in rest - {key} :: CleanText(k0) != [] ==> CleanText(k0) in cleaned'
  {
    forall k0 | k0 in row && k0 !in rest - {key} && CleanText(k0) != [] ensures CleanText(k0) in cleaned' {
      if k0 != key {
        assert CleanText(k0) in cleaned;
      }
    }
  }

  /** After one more entry the cleaned row is still clean. */
  lemma DrainStepClean(cleaned: Row, key: string, v: Value, cleaned': Row)
    requires IsCleanRow(cleaned)
    requires cleaned' == if CleanText(key) != [] then cleaned[CleanText(key) := CleanValue(v)] else cleaned
    ensures IsCleanRow(cleaned')
  {
    var ck := CleanText(key);
    forall k | k in cleaned' ensures k != [] && IsClean(k) && IsCleanValue(cleaned'[k]) {
      if ck != [] && k == ck {
        assert IsCleanValue(CleanValue(v));
      } else {
        assert k in cleaned;
      }
    }
  }

  /** When nothing is left, the loop state is a cleaning of the whole row. */
  lemma DrainDone(row: Row, cleaned: Row)
    requires DrainedSoFar(row, map[], cleaned)
    ensures IsCleaningOf(row, cleaned) && IsCleanRow(cleaned)
  {
    forall k | k in cleaned
      ensures k != [] && exists k0 | k0 in row :: CleanText(k0) == k && cleaned[k] == CleanValue(row[k0])
    {
      var k0 :| k0 in row && CleanText(k0) == k && cleaned[k] == CleanValue(row[k0]);
    }
  }

  /**
   * Everything a cleaned row holds is clean: keys are non-empty, trimmed and free
   * of invisible characters, string values are cleaned, and the other values are
   * the ones of the original row.
   */
  lemma CleaningGivesCleanRow(row: Row, out: Row)
    requires IsCleaningOf(row, out)
    ensures IsCleanRow(out)
    ensures forall k | k in out && !out[k].Str? ::
      exists k0 | k0 in row :: CleanText(k0) == k && out[k] == row[k0]
  {
    forall k | k in out ensures k != [] && IsClean(k) && IsCleanValue(out[k]) {
      var k0 :| k0 in row && CleanText(k0) == k && out[k] == CleanValue(row[k0]);
    }
  }

  /** On clean values, cleaning is the identity. */
  lemma CleanValueFixed(v: Value)
    requires IsCleanValue(v)
    ensures CleanValue(v) == v
  {
  }

  lemma CleanRowEntryKept(r1: Row, r2: Row, k: string)
    requires IsCleanRow(r1) && IsCleaningOf(r1, r2) && k in r1
    ensures k in r2 && r2[k] == r1[k]
  {
    assert IsClean(k);
    var k1 :| k1 in r1 && CleanText(k1) == CleanText(k) && r2[CleanText(k)] == CleanValue(r1[k1]);
    assert IsClean(k1);
    CleanValueFixed(r1[k]);
  }

  lemma CleanRowKeyOld(r1: Row, r2: Row, k: string)
    requires IsCleanRow(r1) && IsCleaningOf(r1, r2) && k in r2
    ensures k in r1
  {
    var k1 :| k1 in r1 && CleanText(k1) == k && r2[k] == CleanValue(r1[k1]);
    assert IsClean(k1);
  }

  /** The only cleaning of a clean row is the row itself. */
  lemma CleaningOfCleanRow(r1: Row, r2: Row)
    requires IsCleanRow(r1) && IsCleaningOf(r1, r2)
    ensures r2 == r1
  {
    forall k | k in r1 ensures k in r2 && r2[k] == r1[k] {
      CleanRowEntryKept(r1, r2, k);
    }
    forall k | k in r2 ensures k in r1 {
      CleanRowKeyOld(r1, r2, k);
    }
    SameEntries(r1, r2);
  }

  lemma SameEntries(a: Row, b: Row)
    requires forall k | k in a :: k in b && b[k] == a[k]
    requires forall k | k in b :: k in a
    ensures a == b
  {
    assert a.Keys == b.Keys;
  }

  /** Cleaning a cleaned row changes nothing. */
  lemma CleaningIsIdempotent(r0: Row, r1: Row, r2: Row)
    requires IsCleaningOf(r0, r1) && IsCleaningOf(r1, r2)
    ensures r2 == r1
  {
    CleaningGivesCleanRow(r0, r1);
    CleaningOfCleanRow(r1, r2);
  }

  /** A clean row is its own cleaning. */
  lemma CleanRowIsFixed(row: Row)
    requires IsCleanRow(row)
    ensures IsCleaningOf(row, row)
  {
    forall k | k in row
      ensures k != [] && exists k0 | k0 in row :: CleanText(k0) == k && row[k] == CleanValue(row[k0])
    {
      assert IsClean(k);
      CleanValueFixed(row[k]);
      assert CleanText(k) == k && row[k] == CleanValue(row[k]);
    }
    forall k0 | k0 in row ensures CleanText(k0) in row {
      assert IsClean(k0);
    }
  }

  /** A string value with a backslash-u sequence or a NUL character in it. */
  predicate Suspicious(s: string) {
    Contains(s, "\\u") || '\0' in s
  }

  /**
   * `find_suspicious_escapes`: the (key, text) pairs of the string values that
   * are suspicious, each key once, in the row's iteration order.
   */
  method FindSuspiciousEscapes(row: Row) returns (found: seq<(string, string)>)
    ensures forall p | p in found :: p.0 in row && row[p.0] == Str(p.1) && Suspicious(p.1)
    ensures forall k | k in row && row[k].Str? && Suspicious(row[k].s) :: (k, row[k].s) in found
    ensures forall i, j | 0 <= i < j < |found| :: found[i].0 != found[j].0
  {
    var rest := row.Keys;
    found := [];
    while rest != {}
      invariant rest <= row.Keys
      invariant forall p | p in found :: p.0 in row && p.0 !in rest && row[p.0] == Str(p.1) && Suspicious(p.1)
      invariant forall k | k in row && k !in rest && row[k].Str? && Suspicious(row[k].s) :: (k, row[k].s) in found
      invariant forall i, j | 0 <= i < j < |found| :: found[i].0 != found[j].0
      decreases |rest|
    {
      var key :| key in rest;
      match row[key] {
        case Str(s) =>
          if Suspicious(s) {
            found := found + [(key, s)];
          }
        case _ =>
      }
      rest := rest - {key};
    }
  }

  /** In a cleaned value a NUL cannot occur, so only a backslash-u sequence is ever reported. */
  lemma CleanTextSuspicion(s: string)
    ensures Suspicious(CleanText(s)) <==> Contains(CleanText(s), "\\u")
  {
    assert Invisible('\0');
  }
}
