/** The record that flows from input parsing through classification to export. */
module Models {
  import opened Wrappers

  /**
   * `UserDto` (src/AdUserStatus/Models/UserDto.cs): `SamAccountName` is a non-null
   * string defaulting to "", `DisplayName` and `Email` are nullable, `Enabled` is the
   * tri-state `bool?`, and `Category` is the name of the result bucket ("" until set).
   */
  datatype UserDto = UserDto(
    samAccountName: string,
    displayName: Option<string>,
    email: Option<string>,
    enabled: Option<bool>,
    category: string)

  /** The four bucket names, which are also the export sheet names. */
  const EnabledTag: string := "Enabled"
  const DisabledTag: string := "Disabled"
  const NotFoundTag: string := "NotFound"
  const ExternalTag: string := "External"

  /** A category is one of the four bucket names. */
  predicate IsCategory(c: string) {
    c == EnabledTag || c == DisabledTag || c == NotFoundTag || c == ExternalTag
  }

  /** `results.Where(x => x.Category == c)`: the records of category `c`, in order. */
  function WithCategory(us: seq<UserDto>, c: string): (r: seq<UserDto>)
    ensures |r| <= |us|
    ensures forall i | 0 <= i < |r| :: r[i].category == c
  {
    if us == [] then []
    else
      var n := |us|;
      WithCategory(us[..n - 1], c) + (if us[n - 1].category == c then [us[n - 1]] else [])
  }

  /** Filtering distributes over concatenation, so each filtered list keeps input order. */
  lemma {:induction false} WithCategoryAppend(a: seq<UserDto>, b: seq<UserDto>, c: string)
    ensures WithCategory(a + b, c) == WithCategory(a, c) + WithCategory(b, c)
  {
    if b == [] {
      assert a + b == a;
    } else {
      var n := |b|;
      assert (a + b)[..|a + b| - 1] == a + b[..n - 1];
      WithCategoryAppend(a, b[..n - 1], c);
    }
  }

  /** A record of category `c` is kept exactly when it is in the input. */
  lemma {:induction false} WithCategoryMembers(us: seq<UserDto>, c: string, u: UserDto)
    ensures u in WithCategory(us, c) <==> u in us && u.category == c
  {
    if us != [] {
      var n := |us|;
      WithCategoryMembers(us[..n - 1], c, u);
      assert us == us[..n - 1] + [us[n - 1]];
    }
  }

  /** Records whose categories are among four distinct names are split without loss or
      duplication among the four filters. */
  lemma {:induction false} PartitionAmong(us: seq<UserDto>, a: string, b: string, c: string, d: string)
    requires a != b && a != c && a != d && b != c && b != d && c != d
    requires forall i | 0 <= i < |us| :: us[i].category in {a, b, c, d}
    ensures multiset(WithCategory(us, a)) + multiset(WithCategory(us, b))
      + multiset(WithCategory(us, c)) + multiset(WithCategory(us, d)) == multiset(us)
  {
    if us != [] {
      var n := |us|;
      var init := us[..n - 1];
      var u := us[n - 1];
      PartitionAmong(init, a, b, c, d);
      assert us == init + [u];
      var ms := multiset{u};
      var ma, mb, mc, md := multiset(WithCategory(init, a)), multiset(WithCategory(init, b)),
        multiset(WithCategory(init, c)), multiset(WithCategory(init, d));
      var x := u.category;
      WithCategorySnoc(us, a);
      WithCategorySnoc(us, b);
      WithCategorySnoc(us, c);
      WithCategorySnoc(us, d);
      assert multiset(us) == multiset(init) + ms;
      assert x in {a, b, c, d};
      SplitStep(ma, mb, mc, md, multiset(init), ms, x == a, x == b, x == c, x == d);
    }
  }

  /** The last record joins the filter of its own category and no other. */
  lemma WithCategorySnoc(us: seq<UserDto>, c: string)
    requires us != []
    ensures multiset(WithCategory(us, c)) == multiset(WithCategory(us[..|us| - 1], c))
      + (if us[|us| - 1].category == c then multiset{us[|us| - 1]} else multiset{})
  {
  }

  /** One more element, falling into exactly one of four parts, keeps the parts summing
      to the whole. */
  lemma SplitStep<T>(ma: multiset<T>, mb: multiset<T>, mc: multiset<T>, md: multiset<T>, whole: multiset<T>,
                     ms: multiset<T>, ca: bool, cb: bool, cc: bool, cd: bool)
    requires ma + mb + mc + md == whole
    requires (ca && !cb && !cc && !cd) || (!ca && cb && !cc && !cd) || (!ca && !cb && cc && !cd) || (!ca && !cb && !cc && cd)
    ensures (ma + (if ca then ms else multiset{})) + (mb + (if cb then ms else multiset{}))
      + (mc + (if cc then ms else multiset{})) + (md + (if cd then ms else multiset{})) == whole + ms
  {
  }

  /** Records that all carry one of the four categories are split without loss or
      duplication among the four filters. */
  lemma CategoriesPartition(us: seq<UserDto>)
    requires forall i | 0 <= i < |us| :: IsCategory(us[i].category)
    ensures multiset(WithCategory(us, EnabledTag)) + multiset(WithCategory(us, DisabledTag))
      + multiset(WithCategory(us, NotFoundTag)) + multiset(WithCategory(us, ExternalTag)) == multiset(us)
    ensures |WithCategory(us, EnabledTag)| + |WithCategory(us, DisabledTag)|
      + |WithCategory(us, NotFoundTag)| + |WithCategory(us, ExternalTag)| == |us|
  {
    TagsDistinct();
    PartitionAmong(us, EnabledTag, DisabledTag, NotFoundTag, ExternalTag);
    assert |multiset(us)| == |us|;
  }

  /** The four bucket names differ from one another. */
  lemma TagsDistinct()
    ensures EnabledTag != DisabledTag && EnabledTag != NotFoundTag && EnabledTag != ExternalTag
    ensures DisabledTag != NotFoundTag && DisabledTag != ExternalTag && NotFoundTag != ExternalTag
  {
    assert EnabledTag[0] == 'E' && DisabledTag[0] == 'D' && NotFoundTag[0] == 'N' && ExternalTag[0] == 'E';
    assert |EnabledTag| == 7 && |ExternalTag| == 8;
  }
}
