/**
 * map_and_encode: turning a category name read from the database (a meal
 * plan, room type or market segment name) into the integer code that the
 * cancellation model was trained on.
 *
 * The mapping dictionary is an insertion-ordered list of (key, value) pairs,
 * as a Python dict iterates. A LabelEncoder is represented by its classes_
 * list; `None` stands both for a missing encoder and for one without
 * classes_, which the Python code treats alike. transform([c]) of a class c
 * is its position in classes_ (classes_ of a fitted LabelEncoder are
 * distinct, so the first position is the position).
 */
module Encoding {
  import opened Wrappers
  import opened Text

  type Mapping = seq<(string, string)>

  type Encoder = Option<seq<string>>

  /** MEAL_MAP, ROOM_MAP and SEGMENT_MAP, in their insertion order. */
  const MealMap: Mapping := [
    ("Breakfast Only", "Meal Plan 1"), ("Full Board", "Meal Plan 2"),
    ("Half Board", "Meal Plan 3"), ("No Meal", "Not Selected")]

  const RoomMap: Mapping := [
    ("Standard", "Room_Type 1"), ("Deluxe", "Room_Type 2"), ("Executive", "Room_Type 3"),
    ("Family Suite", "Room_Type 4"), ("Presidential Suite", "Room_Type 5"),
    ("Single", "Room_Type 6"), ("Double", "Room_Type 7")]

  const SegmentMap: Mapping := [
    ("Online", "Online"), ("Offline", "Offline"), ("Corporate", "Corporate"),
    ("Airline Guest", "Aviation"), ("Complementary", "Complementary")]

  /** The index of the first element of s at or after lo that satisfies p,
      if any: the scan of a for loop that breaks at its first hit. */
  function FirstFrom<T>(s: seq<T>, p: T -> bool, lo: nat): (r: Option<nat>)
    requires lo <= |s|
    ensures r.Some? ==> lo <= r.value < |s| && p(s[r.value])
    ensures r.Some? ==> forall j :: lo <= j < r.value ==> !p(s[j])
    ensures r.None? ==> forall j :: lo <= j < |s| ==> !p(s[j])
    decreases |s| - lo
  {
    if lo == |s| then None
    else if p(s[lo]) then Some(lo)
    else FirstFrom(s, p, lo + 1)
  }

  /** The index of the first element of s that satisfies p, if any. */
  function FirstWhere<T>(s: seq<T>, p: T -> bool): (r: Option<nat>)
    ensures r.Some? ==> r.value < |s| && p(s[r.value])
    ensures r.Some? ==> forall j :: 0 <= j < r.value ==> !p(s[j])
    ensures r.None? ==> forall j :: 0 <= j < |s| ==> !p(s[j])
  {
    FirstFrom(s, p, 0)
  }

  /** No key occurs twice, as in any Python dict. */
  predicate DistinctKeys(m: Mapping)
  {
    forall i, j :: 0 <= i < j < |m| ==> m[i].0 != m[j].0
  }

  /** No class occurs twice, as in the classes_ of a fitted LabelEncoder. */
  predicate DistinctClasses(classes: seq<string>)
  {
    forall i, j :: 0 <= i < j < |classes| ==> classes[i] != classes[j]
  }

  /** mapping_dict.get(key): None exactly when key is not a key; otherwise
      the value of the first pair with that key. */
  function Get(m: Mapping, key: string): (r: Option<string>)
    ensures r.None? <==> forall j :: 0 <= j < |m| ==> m[j].0 != key
    ensures r.Some? ==> exists j :: 0 <= j < |m| && m[j] == (key, r.value)
  {
    match FirstWhere(m, (e: (string, string)) => e.0 == key)
    case Some(i) => Some(m[i].1)
    case None => None
  }

  /** The test of the case-insensitive loop: a key matches when its
      comparison key equals the value's. */
  function FoldsTo(dbLower: string): ((string, string)) -> bool
  {
    (e: (string, string)) => Fold(e.0) == dbLower
  }

  /** The case-insensitive comparison key: str(x).strip().lower(). It is
      no longer than x and holds no upper-case ASCII letter. */
  function Fold(s: string): (r: string)
    ensures |r| <= |s|
    ensures forall i :: 0 <= i < |r| ==> !('A' <= r[i] <= 'Z')
  {
    Lower(Strip(s))
  }

  /** The model category chosen for a database value: the exact key, else
      the first key equal to it after stripping and lower-casing, else the
      caller's default. */
  function ModelCategory(db: string, m: Mapping, default: Option<string>): (r: Option<string>)
    ensures r == default || exists j :: 0 <= j < |m| && r == Some(m[j].1)
    ensures default.Some? ==> r.Some?
  {
    match Get(m, db)
    case Some(v) => Some(v)
    case None =>
      match FirstWhere(m, FoldsTo(Fold(db)))
      case Some(i) => Some(m[i].1)
      case None => default
  }

  /** The approximate class match: one lower-cased string contains the
      other. A class equal to the category up to case matches, and so does
      every class when the category is empty. */
  predicate Approx(mcLower: string, c: string)
    ensures Lower(c) == mcLower ==> Approx(mcLower, c)
    ensures mcLower == [] ==> Approx(mcLower, c)
  {
    Contains(Lower(c), mcLower) || Contains(mcLower, Lower(c))
  }

  /** encoder.transform([c])[0] for a class c of the encoder: the position
      of its first occurrence in classes_. */
  function Transform(classes: seq<string>, c: string): (r: nat)
    requires c in classes
    ensures r < |classes| && classes[r] == c
    ensures forall j :: 0 <= j < r ==> classes[j] != c
  {
    if classes[0] == c then 0 else 1 + Transform(classes[1..], c)
  }

  /** The code of a chosen category: -1 when there is no category or no
      encoder; the category's own code when the encoder knows it; otherwise
      the code of the first class that approximately matches it; -1 when
      none does. */
  function EncodeCategory(cat: Option<string>, enc: Encoder): (r: int)
    ensures cat.None? || enc.None? ==> r == -1
    ensures -1 <= r && (enc.Some? ==> r < |enc.value|)
    ensures r != -1 ==> enc.value[r] == cat.value || Approx(Lower(cat.value), enc.value[r])
  {
    if cat.None? || enc.None? then -1
    else if cat.value in enc.value then Transform(enc.value, cat.value)
    else
      match FirstWhere(enc.value, (c: string) => Approx(Lower(cat.value), c))
      case Some(i) => Transform(enc.value, enc.value[i])
      case None => -1
  }

  /** What map_and_encode returns: -1 for a missing database value, otherwise
      the code of the category chosen for it. */
  function Encode(db: Option<string>, m: Mapping, enc: Encoder, default: Option<string>): (r: int)
    ensures db.None? || enc.None? ==> r == -1
    ensures -1 <= r && (enc.Some? ==> r < |enc.value|)
    ensures r != -1 ==> db.Some? && ModelCategory(db.value, m, default).Some?
    ensures r != -1 ==> var cat := ModelCategory(db.value, m, default).value;
                        enc.value[r] == cat || Approx(Lower(cat), enc.value[r])
  {
    if db.None? then -1 else EncodeCategory(ModelCategory(db.value, m, default), enc)
  }

  /** map_and_encode, step by step as the Python function runs. */
  method MapAndEncode(db: Option<string>, m: Mapping, enc: Encoder, default: Option<string>)
    returns (r: int)
    ensures r == Encode(db, m, enc, default)
  {
    if db.None? {
      return -1;
    }
    var modelCat := ChooseCategory(db.value, m, default);
    r := EncodeChosen(modelCat, enc);
  }

  /** The lookups of map_and_encode: direct, case-insensitive, default. */
  method ChooseCategory(db: string, m: Mapping, default: Option<string>)
    returns (modelCat: Option<string>)
    ensures modelCat == ModelCategory(db, m, default)
  {
    modelCat := Get(m, db);
    if modelCat.None? {
      var dbLower := Fold(db);
      var i := 0;
      while i < |m|
        invariant 0 <= i <= |m|
        invariant FirstFrom(m, FoldsTo(dbLower), i) == FirstWhere(m, FoldsTo(dbLower))
      {
        if Fold(m[i].0) == dbLower {
          return Some(m[i].1);
        }
        i := i + 1;
      }
      modelCat := default;
    }
  }

  /** The final step of map_and_encode: exact class hit, then the
      approximate search over the classes in order. */
  method EncodeChosen(modelCat: Option<string>, enc: Encoder) returns (r: int)
    ensures r == EncodeCategory(modelCat, enc)
  {
    if modelCat.Some? && enc.Some? {
      var classes := enc.value;
      if modelCat.value in classes {
        return Transform(classes, modelCat.value);
      }
      var mcLower := Lower(modelCat.value);
      for k := 0 to |classes|
        invariant forall j :: 0 <= j < k ==> !Approx(mcLower, classes[j])
      {
        if Approx(mcLower, classes[k]) {
          return Transform(classes, classes[k]);
        }
      }
    }
    return -1;
  }

  /** An exact key of the dictionary selects its own value, whatever other
      keys match it case-insensitively. */
  lemma ExactKeyWins(db: string, m: Mapping, default: Option<string>, v: string)
    requires DistinctKeys(m) && (db, v) in m
    ensures ModelCategory(db, m, default) == Some(v)
  {
    var k :| 0 <= k < |m| && m[k] == (db, v);
    var hit := FirstWhere(m, (e: (string, string)) => e.0 == db);
    assert hit.Some? && hit.value == k;
  }

  /** With no exact key, the first key (in insertion order) that is equal to
      the value after stripping and lower-casing supplies the category. */
  lemma FoldedKeyFallback(db: string, m: Mapping, default: Option<string>, i: nat)
    requires forall j :: 0 <= j < |m| ==> m[j].0 != db
    requires i < |m| && Fold(m[i].0) == Fold(db)
    requires forall j :: 0 <= j < i ==> Fold(m[j].0) != Fold(db)
    ensures ModelCategory(db, m, default) == Some(m[i].1)
  {
    var hit := FirstWhere(m, FoldsTo(Fold(db)));
    assert hit.Some? && hit.value == i;
  }

  /** When no key matches even case-insensitively, the caller's default is
      the category. */
  lemma DefaultWhenNoKeyMatches(db: string, m: Mapping, default: Option<string>)
    requires forall j :: 0 <= j < |m| ==> Fold(m[j].0) != Fold(db)
    ensures ModelCategory(db, m, default) == default
  {
    assert forall j :: 0 <= j < |m| ==> m[j].0 != db;
  }

  /** No category (the default being None as well), no encoder or an encoder
      with no classes: the code is -1. */
  lemma NoCodeWithoutCategoryOrClasses(db: string, m: Mapping, enc: Encoder, default: Option<string>)
    requires ModelCategory(db, m, default).None? || enc.None? || enc == Some([])
    ensures Encode(Some(db), m, enc, default) == -1
  {
  }

  /** A category that is one of the encoder's classes is encoded as its
      index in classes_. */
  lemma ExactClassCode(db: string, m: Mapping, classes: seq<string>, default: Option<string>, i: nat)
    requires DistinctClasses(classes) && i < |classes|
    requires ModelCategory(db, m, default) == Some(classes[i])
    ensures Encode(Some(db), m, Some(classes), default) == i
  {
    var r := Transform(classes, classes[i]);
    assert r == i;
  }

  /** A category that is not a class is encoded as the index of the first
      class (in class order) for which one lower-cased string contains the
      other, and as -1 exactly when there is no such class. */
  lemma ApproxFallbackCode(db: string, m: Mapping, classes: seq<string>, default: Option<string>, cat: string)
    requires DistinctClasses(classes)
    requires ModelCategory(db, m, default) == Some(cat) && cat !in classes
    ensures var r := Encode(Some(db), m, Some(classes), default);
            && (r == -1 <==> forall j :: 0 <= j < |classes| ==> !Approx(Lower(cat), classes[j]))
            && (r != -1 ==> 0 <= r < |classes| && Approx(Lower(cat), classes[r])
                            && forall j :: 0 <= j < r ==> !Approx(Lower(cat), classes[j]))
  {
    var hit := FirstWhere(classes, (c: string) => Approx(Lower(cat), c));
    if hit.Some? {
      var t := Transform(classes, classes[hit.value]);
      assert t == hit.value;
    }
  }

  /** A segment that SEGMENT_MAP renames is encoded by its model name. */
  lemma RenamedSegmentExample()
    ensures Encode(Some("Airline Guest"), SegmentMap,
                   Some(["Aviation", "Complementary", "Corporate", "Offline", "Online"]), Some("Offline")) == 0
  {
    var classes := ["Aviation", "Complementary", "Corporate", "Offline", "Online"];
    assert SegmentMap[3] == ("Airline Guest", "Aviation");
    assert DistinctKeys(SegmentMap);
    ExactKeyWins("Airline Guest", SegmentMap, Some("Offline"), "Aviation");
    assert DistinctClasses(classes);
    ExactClassCode("Airline Guest", SegmentMap, classes, Some("Offline"), 0);
  }

  /** A meal plan name that MEAL_MAP knows is encoded by its model name. */
  lemma MealPlanExample()
    ensures Encode(Some("Half Board"), MealMap,
                   Some(["Meal Plan 1", "Meal Plan 2", "Meal Plan 3", "Not Selected"]), Some("Not Selected")) == 2
  {
    var classes := ["Meal Plan 1", "Meal Plan 2", "Meal Plan 3", "Not Selected"];
    assert MealMap[2] == ("Half Board", "Meal Plan 3");
    assert DistinctKeys(MealMap);
    ExactKeyWins("Half Board", MealMap, Some("Not Selected"), "Meal Plan 3");
    assert DistinctClasses(classes);
    ExactClassCode("Half Board", MealMap, classes, Some("Not Selected"), 2);
  }

  /** A room type name that ROOM_MAP knows is encoded by its model name. */
  lemma RoomTypeExample()
    ensures Encode(Some("Deluxe"), RoomMap,
                   Some(["Room_Type 1", "Room_Type 2", "Room_Type 3", "Room_Type 4",
                         "Room_Type 5", "Room_Type 6", "Room_Type 7"]), Some("Room_Type 1")) == 1
  {
    var classes := ["Room_Type 1", "Room_Type 2", "Room_Type 3", "Room_Type 4",
                    "Room_Type 5", "Room_Type 6", "Room_Type 7"];
    assert RoomMap[1] == ("Deluxe", "Room_Type 2");
    assert DistinctKeys(RoomMap);
    ExactKeyWins("Deluxe", RoomMap, Some("Room_Type 1"), "Room_Type 2");
    assert DistinctClasses(classes);
    ExactClassCode("Deluxe", RoomMap, classes, Some("Room_Type 1"), 1);
  }
}
