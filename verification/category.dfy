/** Gmail category labels: mapping a label name to a category, finding a
    message's category from its label ids, and the allowed-category test.
    The Gmail calls become inputs: the label list behind the label map and
    the message's label ids, each possibly an I/O failure. */
module Category {
  import opened Model
  import opened Text

  datatype Category = PRIMARY | SOCIAL | PROMOTIONS | UPDATES | FORUMS | UNKNOWN

  /** Result of a remote Gmail call that may fail with an IOException. */
  datatype Io<T> = Done(value: T) | IoFailure

  const CategoryPrefix: string := "CATEGORY_"

  /** Enum.name() */
  function Name(c: Category): string {
    match c
    case PRIMARY => "PRIMARY"
    case SOCIAL => "SOCIAL"
    case PROMOTIONS => "PROMOTIONS"
    case UPDATES => "UPDATES"
    case FORUMS => "FORUMS"
    case UNKNOWN => "UNKNOWN"
  }

  /** Enum.valueOf: the constant with exactly this name; None stands for
      the IllegalArgumentException thrown otherwise. */
  function ValueOf(name: string): (r: Option<Category>)
    ensures r.Some? ==> Name(r.value) == name
    ensures r.None? ==> forall c :: Name(c) != name
  {
    if name == "PRIMARY" then Some(PRIMARY)
    else if name == "SOCIAL" then Some(SOCIAL)
    else if name == "PROMOTIONS" then Some(PROMOTIONS)
    else if name == "UPDATES" then Some(UPDATES)
    else if name == "FORUMS" then Some(FORUMS)
    else if name == "UNKNOWN" then Some(UNKNOWN)
    else None
  }

  /** GmailCategory.fromLabelName */
  function FromLabelName(labelName: Option<string>): (r: Category)
    ensures labelName.None? || !StartsWith(labelName.value, CategoryPrefix) ==> r == UNKNOWN
    ensures r != UNKNOWN ==>
      labelName.Some? && labelName.value == CategoryPrefix + Name(r)
  {
    if labelName.None? || !StartsWith(labelName.value, CategoryPrefix) then UNKNOWN
    else
      var suffix := labelName.value[|CategoryPrefix|..];
      assert labelName.value == CategoryPrefix + suffix;
      match ValueOf(suffix)
      case Some(c) => c
      case None => UNKNOWN
  }

  /** Every category survives the trip through its label name. */
  lemma FromLabelNameRoundTrip(c: Category)
    ensures FromLabelName(Some(CategoryPrefix + Name(c))) == c
  {
    var name := CategoryPrefix + Name(c);
    assert StartsWith(name, CategoryPrefix);
    assert name[|CategoryPrefix|..] == Name(c);
  }

  /** The suffix match is exact and case-sensitive. */
  lemma LowerCaseSuffixIsUnknown()
    ensures FromLabelName(Some("CATEGORY_primary")) == UNKNOWN
  {
    var name := "CATEGORY_primary";
    assert StartsWith(name, CategoryPrefix);
    assert name[|CategoryPrefix|..] == "primary";
  }

  datatype Label = Label(id: string, name: Option<string>)

  function LabelIds(labels: seq<Label>): set<string> {
    set i | 0 <= i < |labels| :: labels[i].id
  }

  /** initLabelMap: one entry per label id, a later label overwriting an
      earlier one with the same id; a failed or null listing gives an
      empty map. */
  function LabelMap(labels: Io<Option<seq<Label>>>): (r: map<string, Option<string>>)
    ensures labels.IoFailure? || labels.value.None? ==> r == map[]
    ensures labels.Done? && labels.value.Some? ==> r.Keys == LabelIds(labels.value.value)
    ensures labels.Done? && labels.value.Some? ==>
      forall i :: 0 <= i < |labels.value.value| &&
        (forall j :: i < j < |labels.value.value| ==> labels.value.value[j].id != labels.value.value[i].id)
        ==> r[labels.value.value[i].id] == labels.value.value[i].name
  {
    if labels.IoFailure? || labels.value.None? then map[]
    else PutAll(map[], labels.value.value)
  }

  /** The put loop of initLabelMap; the last label with a given id wins. */
  function {:induction false} PutAll(m: map<string, Option<string>>, labels: seq<Label>): (r: map<string, Option<string>>)
    ensures r.Keys == m.Keys + LabelIds(labels)
    ensures forall id :: id in m && id !in LabelIds(labels) ==> r[id] == m[id]
    ensures forall i :: (0 <= i < |labels| && forall j :: i < j < |labels| ==> labels[j].id != labels[i].id) ==>
      r[labels[i].id] == labels[i].name
    decreases |labels|
  {
    if labels == [] then m
    else
      var rest := labels[1..];
      assert LabelIds(labels) == {labels[0].id} + LabelIds(rest) by {
        forall id | id in LabelIds(labels) ensures id in {labels[0].id} + LabelIds(rest) {
          var i :| 0 <= i < |labels| && labels[i].id == id;
          if i > 0 { assert rest[i - 1].id == id; }
        }
        forall id | id in LabelIds(rest) ensures id in LabelIds(labels) {
          var i :| 0 <= i < |rest| && rest[i].id == id;
          assert labels[i + 1].id == id;
        }
      }
      var r := PutAll(m[labels[0].id := labels[0].name], rest);
      assert forall i :: 1 <= i < |labels| ==> rest[i - 1] == labels[i];
      assert forall i :: (0 <= i < |labels| && forall j :: i < j < |labels| ==> labels[j].id != labels[i].id) ==>
        r[labels[i].id] == labels[i].name by {
        forall i | 0 <= i < |labels| && (forall j :: i < j < |labels| ==> labels[j].id != labels[i].id)
          ensures r[labels[i].id] == labels[i].name
        {
          if i == 0 {
            assert labels[0].id !in LabelIds(rest);
          } else {
            assert forall j :: i - 1 < j < |rest| ==> rest[j].id != rest[i - 1].id;
          }
        }
      }
      r
  }

  /** A label id whose mapped name is a category label name. */
  predicate IsCategoryLabel(labelNames: map<string, Option<string>>, labelId: string) {
    labelId in labelNames && labelNames[labelId].Some? && StartsWith(labelNames[labelId].value, CategoryPrefix)
  }

  /** The loop over label ids: the position of the first category label. */
  function {:induction false} FirstCategoryLabel(labelIds: seq<string>, labelNames: map<string, Option<string>>): (r: Option<nat>)
    ensures r.None? ==> forall i :: 0 <= i < |labelIds| ==> !IsCategoryLabel(labelNames, labelIds[i])
    ensures r.Some? ==> r.value < |labelIds| && IsCategoryLabel(labelNames, labelIds[r.value])
    ensures r.Some? ==> forall j :: 0 <= j < r.value ==> !IsCategoryLabel(labelNames, labelIds[j])
  {
    if labelIds == [] then None
    else if IsCategoryLabel(labelNames, labelIds[0]) then Some(0)
    else
      assert forall i :: 1 <= i < |labelIds| ==> labelIds[1..][i - 1] == labelIds[i];
      match FirstCategoryLabel(labelIds[1..], labelNames)
      case None => None
      case Some(k) => Some(k + 1)
  }

  /** getMessageCategory: UNKNOWN when the message fetch fails or its label
      list is null or empty, otherwise the category of the first label id
      whose mapped name starts with the category prefix. */
  function MessageCategory(labelIds: Io<Option<seq<string>>>, labelNames: map<string, Option<string>>): (r: Category)
    ensures labelIds.IoFailure? || labelIds.value.None? ==> r == UNKNOWN
    ensures labelIds.Done? && labelIds.value.Some? ==>
      var ids := labelIds.value.value;
      && ((forall i :: 0 <= i < |ids| ==> !IsCategoryLabel(labelNames, ids[i])) ==> r == UNKNOWN)
      && (forall i :: (0 <= i < |ids| && IsCategoryLabel(labelNames, ids[i]) &&
                       forall j :: 0 <= j < i ==> !IsCategoryLabel(labelNames, ids[j])) ==>
            r == FromLabelName(labelNames[ids[i]]))
  {
    if labelIds.IoFailure? || labelIds.value.None? || labelIds.value.value == [] then UNKNOWN
    else
      var ids := labelIds.value.value;
      match FirstCategoryLabel(ids, labelNames)
      case None => UNKNOWN
      case Some(k) =>
        assert forall i :: (0 <= i < |ids| && IsCategoryLabel(labelNames, ids[i]) &&
                            forall j :: 0 <= j < i ==> !IsCategoryLabel(labelNames, ids[j])) ==> i == k;
        FromLabelName(labelNames[ids[k]])
  }

  /** The label map is built once and kept: after a failed or absent
      listing it stays empty, so every message is UNKNOWN and never in an
      allowed category, whatever labels it carries. */
  lemma {:induction false} FailedListingMakesEveryMessageUnknown(listing: Io<Option<seq<Label>>>,
                                                                labelIds: Io<Option<seq<string>>>)
    requires listing.IoFailure? || listing.value.None?
    ensures MessageCategory(labelIds, LabelMap(listing)) == UNKNOWN
    ensures !IsAllowed(MessageCategory(labelIds, LabelMap(listing)))
  {
    if labelIds.Done? && labelIds.value.Some? {
      var ids := labelIds.value.value;
      assert forall i :: 0 <= i < |ids| ==> !IsCategoryLabel(LabelMap(listing), ids[i]);
    }
  }

  /** isInAllowedCategory on an already-computed category. */
  predicate IsAllowed(c: Category) {
    c == PRIMARY || c == UPDATES
  }

  /** The first category label's name decides: a name the round trip
      produces for PRIMARY or UPDATES gives an allowed category. */
  predicate FirstLabelAllowed(labelIds: Io<Option<seq<string>>>, labelNames: map<string, Option<string>>) {
    && labelIds.Done? && labelIds.value.Some?
    && var first := FirstCategoryLabel(labelIds.value.value, labelNames);
       && first.Some?
       && labelNames[labelIds.value.value[first.value]] in {Some("CATEGORY_PRIMARY"), Some("CATEGORY_UPDATES")}
  }

  lemma AllowedHasPrimaryOrUpdatesLabel(labelIds: Io<Option<seq<string>>>, labelNames: map<string, Option<string>>)
    requires IsAllowed(MessageCategory(labelIds, labelNames))
    ensures FirstLabelAllowed(labelIds, labelNames)
  {
    var c := MessageCategory(labelIds, labelNames);
    var ids := labelIds.value.value;
    var first := FirstCategoryLabel(ids, labelNames);
    assert first.Some?;
    assert labelNames[ids[first.value]] == Some(CategoryPrefix + Name(c));
    assert CategoryPrefix + Name(PRIMARY) == "CATEGORY_PRIMARY";
    assert CategoryPrefix + Name(UPDATES) == "CATEGORY_UPDATES";
  }

  lemma PrimaryOrUpdatesLabelIsAllowed(labelIds: Io<Option<seq<string>>>, labelNames: map<string, Option<string>>)
    requires FirstLabelAllowed(labelIds, labelNames)
    ensures IsAllowed(MessageCategory(labelIds, labelNames))
  {
    var ids := labelIds.value.value;
    var name := labelNames[ids[FirstCategoryLabel(ids, labelNames).value]];
    if name == Some("CATEGORY_PRIMARY") {
      FromLabelNameRoundTrip(PRIMARY);
    } else {
      FromLabelNameRoundTrip(UPDATES);
    }
  }

  /** isInAllowedCategory: true exactly when the message has a category
      label and the first one is named CATEGORY_PRIMARY or CATEGORY_UPDATES. */
  lemma AllowedMeansPrimaryOrUpdatesLabel(labelIds: Io<Option<seq<string>>>, labelNames: map<string, Option<string>>)
    ensures IsAllowed(MessageCategory(labelIds, labelNames)) <==> FirstLabelAllowed(labelIds, labelNames)
  {
    if IsAllowed(MessageCategory(labelIds, labelNames)) {
      AllowedHasPrimaryOrUpdatesLabel(labelIds, labelNames);
    }
    if FirstLabelAllowed(labelIds, labelNames) {
      PrimaryOrUpdatesLabelIsAllowed(labelIds, labelNames);
    }
  }
}
