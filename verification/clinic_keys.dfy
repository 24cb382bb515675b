/**
 * Check-in records as the server stores them, the clinic identifier derived
 * from a clinic's name (`_normalize_clinic_name`, and the same expression
 * inlined in `create_checkin`) and the key under which check-ins are grouped
 * into clinics (`_location_bucket`, `_group_key_for_checkin`).
 */
module ClinicKeys {
  import opened Common

  /** A non-empty `location` dictionary; either coordinate may be null. */
  datatype Location = Location(latitude: Option<real>, longitude: Option<real>)

  /** A stored check-in. `None` is a missing key or a null value (for
      `location`, also an empty dictionary). `ageDays` is
      `(now - created_at).days`, or `None` when `created_at` is missing or
      cannot be parsed: the clock is an input of the model. */
  datatype Checkin = Checkin(
    clinicName: Option<string>,
    location: Option<Location>,
    waitTime: Option<real>,
    condition: Option<string>,
    createdAt: string,
    ageDays: Option<int>)

  // ---------------------------------------------------------------------
  // Normalised clinic names

  /** The class `[a-z0-9]`. */
  predicate IsSlugChar(c: char) {
    'a' <= c <= 'z' || '0' <= c <= '9'
  }

  predicate SlugAlphabet(s: string) {
    forall i :: 0 <= i < |s| ==> IsSlugChar(s[i]) || s[i] == '_'
  }

  predicate NoDoubleUnderscore(s: string) {
    forall i :: 0 <= i < |s| - 1 ==> !(s[i] == '_' && s[i + 1] == '_')
  }

  /** What a normalised name looks like: lower-case letters, digits and
      single underscores between them. */
  predicate IsSlug(s: string) {
    SlugAlphabet(s) && NoDoubleUnderscore(s) && (s == [] || (s[0] != '_' && s[|s| - 1] != '_'))
  }

  /** The characters of `s` in `[a-z0-9]`, in order. */
  function SlugChars(s: string): string {
    if s == [] then [] else (if IsSlugChar(s[0]) then [s[0]] else []) + SlugChars(s[1..])
  }

  lemma {:induction false} SlugCharsAppend(a: string, b: string)
    ensures SlugChars(a + b) == SlugChars(a) + SlugChars(b)
  {
    if a == [] {
      assert a + b == b;
    } else {
      var ab := a + b;
      var head := if IsSlugChar(a[0]) then [a[0]] else [];
      assert ab[0] == a[0] && ab[1..] == a[1..] + b;
      SlugCharsAppend(a[1..], b);
      assert SlugChars(ab) == head + SlugChars(a[1..] + b);
      assert SlugChars(a) == head + SlugChars(a[1..]);
    }
  }

  /** The leading run of characters outside `[a-z0-9]` removed. */
  function DropSeparators(s: string): (r: string)
    ensures |r| <= |s| && r == s[|s| - |r|..]
    ensures r == [] || IsSlugChar(r[0])
    ensures SlugChars(r) == SlugChars(s)
  {
    if s != [] && !IsSlugChar(s[0]) then DropSeparators(s[1..]) else s
  }

  /** `re.sub(r"[^a-z0-9]+", "_", s)`: every maximal run of characters
      outside `[a-z0-9]` becomes a single underscore. */
  function CollapseRuns(s: string): (r: string)
    ensures SlugAlphabet(r) && NoDoubleUnderscore(r)
    ensures s != [] && IsSlugChar(s[0]) ==> r != [] && r[0] == s[0]
    ensures SlugChars(r) == SlugChars(s)
    decreases |s|
  {
    if s == [] then []
    else if IsSlugChar(s[0]) then
      var r := [s[0]] + CollapseRuns(s[1..]);
      assert SlugChars(r) == [s[0]] + SlugChars(CollapseRuns(s[1..])) by {
        assert r[1..] == CollapseRuns(s[1..]);
      }
      r
    else
      var rest := DropSeparators(s[1..]);
      var r := "_" + CollapseRuns(rest);
      assert SlugChars(r) == SlugChars(CollapseRuns(rest)) by {
        assert r[1..] == CollapseRuns(rest);
      }
      r
  }

  function StripLeadingUnderscores(s: string): (r: string)
    ensures |r| <= |s| && r == s[|s| - |r|..]
    ensures r == [] || r[0] != '_'
    ensures forall i :: 0 <= i < |s| - |r| ==> s[i] == '_'
  {
    if s != [] && s[0] == '_' then StripLeadingUnderscores(s[1..]) else s
  }

  function StripTrailingUnderscores(s: string): (r: string)
    ensures |r| <= |s| && r == s[..|r|]
    ensures r == [] || r[|r| - 1] != '_'
    ensures forall i :: |r| <= i < |s| ==> s[i] == '_'
  {
    if s != [] && s[|s| - 1] == '_' then StripTrailingUnderscores(s[..|s| - 1]) else s
  }

  /** `s.strip("_")`. */
  function StripUnderscores(s: string): string {
    StripTrailingUnderscores(StripLeadingUnderscores(s))
  }

  /** `_normalize_clinic_name` (and the `clinic_id` of `create_checkin`):
      lower-case, strip, collapse every run of characters outside
      `[a-z0-9]` into one underscore, strip underscores. The result is a
      slug: only `[a-z0-9_]`, with no leading, trailing or doubled
      underscore. */
  function Normalize(name: string): (r: string)
    ensures IsSlug(r)
  {
    StripUnderscoresKeepsShape(CollapseRuns(Lower(PyStrip(name))));
    StripUnderscores(CollapseRuns(Lower(PyStrip(name))))
  }

  lemma InfixKeepsShape(s: string, i: nat, j: nat)
    requires SlugAlphabet(s) && NoDoubleUnderscore(s)
    requires i <= j <= |s|
    ensures SlugAlphabet(s[i..j]) && NoDoubleUnderscore(s[i..j])
  {
    var r := s[i..j];
    forall k | 0 <= k < |r| - 1
      ensures !(r[k] == '_' && r[k + 1] == '_')
    {
      assert r[k] == s[i + k] && r[k + 1] == s[i + k + 1];
    }
  }

  lemma {:induction false} UnderscoresHaveNoSlugChars(s: string)
    requires forall i :: 0 <= i < |s| ==> s[i] == '_'
    ensures SlugChars(s) == []
  {
    if s != [] {
      UnderscoresHaveNoSlugChars(s[1..]);
    }
  }

  lemma {:induction false} StripLeadingKeepsSlugChars(s: string)
    ensures SlugChars(StripLeadingUnderscores(s)) == SlugChars(s)
  {
    if s != [] && s[0] == '_' {
      StripLeadingKeepsSlugChars(s[1..]);
    }
  }

  lemma {:induction false} StripTrailingKeepsSlugChars(s: string)
    ensures SlugChars(StripTrailingUnderscores(s)) == SlugChars(s)
  {
    if s != [] && s[|s| - 1] == '_' {
      var init := s[..|s| - 1];
      assert s == init + [s[|s| - 1]];
      SlugCharsAppend(init, [s[|s| - 1]]);
      StripTrailingKeepsSlugChars(init);
    }
  }

  lemma StripUnderscoresKeepsSlugChars(s: string)
    ensures SlugChars(StripUnderscores(s)) == SlugChars(s)
  {
    StripLeadingKeepsSlugChars(s);
    StripTrailingKeepsSlugChars(StripLeadingUnderscores(s));
  }

  lemma StripUnderscoresKeepsShape(s: string)
    requires SlugAlphabet(s) && NoDoubleUnderscore(s)
    ensures IsSlug(StripUnderscores(s))
    ensures SlugChars(StripUnderscores(s)) == SlugChars(s)
  {
    StripUnderscoresIsSlug(s);
    StripUnderscoresKeepsSlugChars(s);
  }

  lemma StripUnderscoresIsSlug(s: string)
    requires SlugAlphabet(s) && NoDoubleUnderscore(s)
    ensures IsSlug(StripUnderscores(s))
  {
    var t := StripLeadingUnderscores(s);
    var r := StripTrailingUnderscores(t);
    var i := |s| - |t|;
    assert t == s[i..] && r == t[..|r|];
    PrefixOfSuffix(s, i, |r|);
    InfixKeepsShape(s, i, i + |r|);
    assert SlugAlphabet(r) && NoDoubleUnderscore(r);
    assert r == [] || (r[0] == t[0] && r[0] != '_' && r[|r| - 1] != '_');
  }

  lemma PrefixOfSuffix(s: string, i: nat, n: nat)
    requires i + n <= |s|
    ensures s[i..][..n] == s[i..i + n]
  {
    assert forall k :: 0 <= k < n ==> s[i..][..n][k] == s[i + k] == s[i..i + n][k];
  }

  /** Normalisation loses no letter or digit: the `[a-z0-9]` characters of
      the result are those of the lower-cased name, in order. */
  lemma NormalizeKeepsLettersAndDigits(name: string)
    ensures SlugChars(Normalize(name)) == SlugChars(Lower(name))
  {
    StripUnderscoresKeepsShape(CollapseRuns(Lower(PyStrip(name))));
    LowerTrimKeepsSlugChars(name);
  }

  lemma LowerTrimKeepsSlugChars(name: string)
    ensures SlugChars(Lower(PyStrip(name))) == SlugChars(Lower(name))
  {
    var p, q := TrimBounds(IsPySpace, name);
    SpacesAroundKeepSlugChars(p, PyStrip(name), q);
  }

  lemma LowerAppend(a: string, b: string)
    ensures Lower(a + b) == Lower(a) + Lower(b)
  {
  }

  /** Lower-casing and removing surrounding whitespace leave the letters
      and digits of a string alone. */
  lemma SpacesAroundKeepSlugChars(p: string, m: string, q: string)
    requires forall k :: 0 <= k < |p| ==> IsPySpace(p[k])
    requires forall k :: 0 <= k < |q| ==> IsPySpace(q[k])
    ensures SlugChars(Lower(p + m + q)) == SlugChars(Lower(m))
  {
    LowerAppend(p + m, q);
    LowerAppend(p, m);
    assert Lower(p) == p;
    assert Lower(q) == q;
    SpacesHaveNoSlugChars(p);
    SpacesHaveNoSlugChars(q);
    SlugCharsAppend(p + Lower(m), q);
    SlugCharsAppend(p, Lower(m));
  }

  lemma {:induction false} SpacesHaveNoSlugChars(s: string)
    requires forall k :: 0 <= k < |s| ==> IsPySpace(s[k])
    ensures SlugChars(s) == []
  {
    if s != [] {
      SpacesHaveNoSlugChars(s[1..]);
    }
  }

  lemma {:induction false} CollapseRunsOfSlug(s: string)
    requires SlugAlphabet(s) && NoDoubleUnderscore(s)
    ensures CollapseRuns(s) == s
    decreases |s|
  {
    if s != [] {
      if IsSlugChar(s[0]) {
        CollapseRunsOfSlug(s[1..]);
      } else {
        assert s[1..] == [] || IsSlugChar(s[1]);
        assert DropSeparators(s[1..]) == s[1..];
        CollapseRunsOfSlug(s[1..]);
      }
    }
  }

  /** Letters, digits and single underscores each followed by a letter or
      digit are copied by `re.sub` unchanged, whatever comes after them. */
  lemma {:induction false} CollapseKeepsSlugPrefix(x: string, t: string)
    requires SlugAlphabet(x) && NoDoubleUnderscore(x) && (x == [] || x[|x| - 1] != '_')
    ensures CollapseRuns(x + t) == x + CollapseRuns(t)
    decreases |x|
  {
    if x == [] {
      assert x + t == t;
    } else {
      var tail := x[1..];
      if !IsSlugChar(x[0]) {
        assert x[0] == '_' && |x| >= 2;
        assert x[1] != '_';
        assert IsSlugChar(tail[0]);
      }
      var s := x + t;
      assert s[0] == x[0] && s[1..] == tail + t;
      assert x == [x[0]] + tail;
      InfixKeepsShape(x, 1, |x|);
      assert x[1..|x|] == tail;
      CollapseKeepsSlugPrefix(tail, t);
      var head := if IsSlugChar(x[0]) then [x[0]] else "_";
      assert head == [x[0]];
      if !IsSlugChar(x[0]) {
        assert DropSeparators(tail + t) == tail + t;
      }
      assert CollapseRuns(s) == head + CollapseRuns(tail + t);
      AppendAssoc(head, tail, CollapseRuns(t));
    }
  }

  lemma AppendAssoc(a: string, b: string, c: string)
    ensures a + (b + c) == (a + b) + c
  {
  }

  lemma {:induction false} DropSeparatorRun(sep: string, t: string)
    requires forall i :: 0 <= i < |sep| ==> !IsSlugChar(sep[i])
    requires t == [] || IsSlugChar(t[0])
    ensures DropSeparators(sep + t) == t
    decreases |sep|
  {
    if sep == [] {
      assert sep + t == t;
    } else {
      assert (sep + t)[0] == sep[0] && (sep + t)[1..] == sep[1..] + t;
      DropSeparatorRun(sep[1..], t);
    }
  }

  /** A maximal run of characters outside `[a-z0-9]` becomes exactly one
      underscore. */
  lemma CollapseReplacesSeparatorRun(sep: string, t: string)
    requires sep != [] && forall i :: 0 <= i < |sep| ==> !IsSlugChar(sep[i])
    requires t == [] || IsSlugChar(t[0])
    ensures CollapseRuns(sep + t) == "_" + CollapseRuns(t)
  {
    var s := sep + t;
    var rest := sep[1..];
    assert s[0] == sep[0] && s[1..] == rest + t;
    assert forall i :: 0 <= i < |rest| ==> rest[i] == sep[i + 1];
    DropSeparatorRun(rest, t);
    assert CollapseRuns(s) == "_" + CollapseRuns(DropSeparators(s[1..]));
  }

  /** Two normalised names separated by any run of characters that are
      neither letters nor digits normalise to the names joined by a single
      underscore: `"north clinic"`, `"north - clinic"` and `"North/Clinic"`
      all give `"north_clinic"`. */
  lemma NormalizeJoinsWithUnderscore(x: string, sep: string, y: string)
    requires IsSlug(x) && IsSlug(y) && x != [] && y != []
    requires sep != [] && forall i :: 0 <= i < |sep| ==> !IsSlugChar(sep[i]) && !('A' <= sep[i] <= 'Z')
    ensures Normalize(x + sep + y) == x + "_" + y
  {
    JoinedIsStrippedAndLower(x, sep, y);
    CollapseJoined(x, sep, y);
    EndsKeepUnderscores(x + "_" + y);
  }

  lemma JoinedIsStrippedAndLower(x: string, sep: string, y: string)
    requires IsSlug(x) && IsSlug(y) && x != [] && y != []
    requires forall i :: 0 <= i < |sep| ==> !('A' <= sep[i] <= 'Z')
    ensures Lower(PyStrip(x + sep + y)) == x + sep + y
  {
    var s := x + sep + y;
    assert s[0] == x[0] && s[|s| - 1] == y[|y| - 1];
    TrimOfTrimmed(IsPySpace, s);
    LowerAppend(x + sep, y);
    LowerAppend(x, sep);
    assert Lower(x) == x;
    assert Lower(sep) == sep;
    assert Lower(y) == y;
  }

  lemma CollapseJoined(x: string, sep: string, y: string)
    requires IsSlug(x) && IsSlug(y) && x != [] && y != []
    requires sep != [] && forall i :: 0 <= i < |sep| ==> !IsSlugChar(sep[i])
    ensures CollapseRuns(x + sep + y) == x + "_" + y
  {
    AppendAssoc(x, sep, y);
    CollapseKeepsSlugPrefix(x, sep + y);
    CollapseReplacesSeparatorRun(sep, y);
    CollapseRunsOfSlug(y);
    AppendAssoc(x, "_", y);
  }

  lemma EndsKeepUnderscores(k: string)
    requires k != [] && k[0] != '_' && k[|k| - 1] != '_'
    ensures StripUnderscores(k) == k
  {
    assert StripLeadingUnderscores(k) == k;
  }

  /** A normalised name is its own normalisation. */
  lemma SlugIsNormal(s: string)
    requires IsSlug(s)
    ensures Normalize(s) == s
  {
    SlugIsTrimmed(s);
    assert Lower(s) == s;
    CollapseRunsOfSlug(s);
    SlugIsStripped(s);
  }

  lemma SlugIsTrimmed(s: string)
    requires IsSlug(s)
    ensures PyStrip(s) == s
  {
    if s != [] {
      assert IsSlugChar(s[0]) && IsSlugChar(s[|s| - 1]);
    }
    TrimOfTrimmed(IsPySpace, s);
  }

  lemma SlugIsStripped(s: string)
    requires IsSlug(s)
    ensures StripUnderscores(s) == s
  {
    assert StripLeadingUnderscores(s) == s;
  }

  /** Normalisation is idempotent. */
  lemma NormalizeIdempotent(name: string)
    ensures Normalize(Normalize(name)) == Normalize(name)
  {
    SlugIsNormal(Normalize(name));
  }

  // ---------------------------------------------------------------------
  // Grouping keys

  /** `_location_bucket` with its default cell of 0.1 degree: the floor of
      each coordinate divided by the cell size, or nothing when a
      coordinate is missing. */
  function LocationBucket(location: Option<Location>): (r: Option<(int, int)>)
    ensures r.Some? <==> location.Some? && location.value.latitude.Some? && location.value.longitude.Some?
    ensures r.Some? ==> r.value.0 as real <= location.value.latitude.value * 10.0 < r.value.0 as real + 1.0
    ensures r.Some? ==> r.value.1 as real <= location.value.longitude.value * 10.0 < r.value.1 as real + 1.0
  {
    if location.None? || location.value.latitude.None? || location.value.longitude.None? then None
    else Some(((location.value.latitude.value / 0.1).Floor, (location.value.longitude.value / 0.1).Floor))
  }

  /** The clinic name of a check-in when it is truthy. */
  predicate HasName(c: Checkin) {
    c.clinicName.Some? && c.clinicName.value != ""
  }

  /** The key of a located group: the normalised name, a double
      underscore, then the two cell indices separated by an underscore. */
  function LocatedKey(norm: string, bucket: (int, int)): string {
    norm + "__" + CellText(bucket)
  }

  /** The two cell indices, in decimal, separated by an underscore. */
  function CellText(bucket: (int, int)): string {
    IntToString(bucket.0) + "_" + IntToString(bucket.1)
  }

  /** `_group_key_for_checkin`. */
  function GroupKey(c: Checkin): (r: Option<string>)
    ensures r.None? <==> !HasName(c)
  {
    if !HasName(c) then None
    else
      var norm := Normalize(c.clinicName.value);
      var bucket := LocationBucket(c.location);
      if bucket.None? then Some(norm) else Some(LocatedKey(norm, bucket.value))
  }

  /** Inside a slug followed by a separator, no two adjacent characters
      are both underscores. */
  lemma NoSeparatorInside(n: string, t: string, i: nat)
    requires IsSlug(n) && i < |n|
    ensures !((n + "__" + t)[i] == '_' && (n + "__" + t)[i + 1] == '_')
  {
    var k := n + "__" + t;
    if i + 1 < |n| {
      assert k[i] == n[i] && k[i + 1] == n[i + 1];
    } else {
      assert k[i] == n[|n| - 1];
    }
  }

  lemma SplitAfterSlug(n1: string, t1: string, n2: string, t2: string)
    requires IsSlug(n1) && IsSlug(n2)
    requires n1 + "__" + t1 == n2 + "__" + t2
    ensures n1 == n2 && t1 == t2
  {
    var k := n1 + "__" + t1;
    assert k[|n1|] == '_' && k[|n1| + 1] == '_';
    assert k[|n2|] == '_' && k[|n2| + 1] == '_';
    if |n1| < |n2| {
      NoSeparatorInside(n2, t2, |n1|);
    } else if |n2| < |n1| {
      NoSeparatorInside(n1, t1, |n2|);
    }
    assert n1 == k[..|n1|] == n2;
    assert t1 == k[|n1| + 2..] == t2;
  }

  lemma SplitAtUnderscore(x1: string, y1: string, x2: string, y2: string)
    requires '_' !in x1 && '_' !in x2
    requires x1 + "_" + y1 == x2 + "_" + y2
    ensures x1 == x2 && y1 == y2
  {
    var k := x1 + "_" + y1;
    assert k[|x1|] == '_' && k[|x2|] == '_';
    assert forall i :: 0 <= i < |x1| ==> k[i] == x1[i] != '_';
    assert forall i :: 0 <= i < |x2| ==> k[i] == x2[i] != '_';
    assert |x1| == |x2|;
    assert x1 == k[..|x1|] == x2;
    assert y1 == k[|x1| + 1..] == y2;
  }

  lemma NoUnderscoreInInt(i: int)
    ensures '_' !in IntToString(i)
  {
  }

  /** Located keys are injective in the normalised name and the cell. */
  lemma LocatedKeyInjective(n1: string, b1: (int, int), n2: string, b2: (int, int))
    requires IsSlug(n1) && IsSlug(n2)
    requires LocatedKey(n1, b1) == LocatedKey(n2, b2)
    ensures n1 == n2 && b1 == b2
  {
    SplitAfterSlug(n1, CellText(b1), n2, CellText(b2));
    CellTextInjective(b1, b2);
  }

  lemma CellTextInjective(b1: (int, int), b2: (int, int))
    requires CellText(b1) == CellText(b2)
    ensures b1 == b2
  {
    NoUnderscoreInInt(b1.0);
    NoUnderscoreInInt(b2.0);
    SplitAtUnderscore(IntToString(b1.0), IntToString(b1.1), IntToString(b2.0), IntToString(b2.1));
    IntToStringInjective(b1.0, b2.0);
    IntToStringInjective(b1.1, b2.1);
  }

  /** Grouping keeps apart what it promises to keep apart: two named
      check-ins share a key only if their names normalise alike and either
      both lack a location or both fall into the same grid cell. */
  lemma GroupKeyDistinguishes(a: Checkin, b: Checkin)
    requires HasName(a) && HasName(b) && GroupKey(a) == GroupKey(b)
    ensures Normalize(a.clinicName.value) == Normalize(b.clinicName.value)
    ensures LocationBucket(a.location) == LocationBucket(b.location)
  {
    var na := Normalize(a.clinicName.value);
    var nb := Normalize(b.clinicName.value);
    var ba := LocationBucket(a.location);
    var bb := LocationBucket(b.location);
    if ba.Some? && bb.Some? {
      LocatedKeyInjective(na, ba.value, nb, bb.value);
    } else if ba.Some? {
      LocatedKeyIsNotSlug(na, ba.value);
    } else if bb.Some? {
      LocatedKeyIsNotSlug(nb, bb.value);
    }
  }

  /** A located key has a double underscore right after the name, so it is
      never a bare normalised name. */
  lemma LocatedKeyIsNotSlug(norm: string, bucket: (int, int))
    ensures !IsSlug(LocatedKey(norm, bucket))
  {
    var k := LocatedKey(norm, bucket);
    assert k[|norm|] == '_' && k[|norm| + 1] == '_';
  }
}
