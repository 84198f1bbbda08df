/**
 * `Taxonomy`: builds the registration arguments of a custom taxonomy from
 * its name, slug and the caller's arguments, keeps its meta boxes and
 * archive template, and supplies the callbacks that make the taxonomy a
 * sortable column of the post list.
 */
module Taxonomy {
  import opened PhpArrays
  import opened PhpStrings

  /** The plural the constructor derives: the name with an `s` appended. */
  function Plural(name: string): (plural: string)
    ensures |plural| == |name| + 1 && plural[..|name|] == name && plural[|name|] == 's'
  {
    name + "s"
  }

  /** The digits `sprintf('%d', ...)` reads from the front of a string. */
  function LeadingDigits(s: string): (d: string)
    ensures AllDigits(d)
    ensures |d| <= |s| && d == s[..|d|]
    ensures |d| < |s| ==> !IsDigit(s[|d|])
  {
    if s == [] || !IsDigit(s[0]) then "" else [s[0]] + LeadingDigits(s[1..])
  }

  /**
   * The `new_item_name` label as written: the `%d` conversion turns the
   * singular name into the integer its leading digits spell, 0 when there
   * are none.
   */
  function NewItemNameAsWritten(singular: string): (text: string)
    ensures !(|singular| > 0 && IsDigit(singular[0])) ==> text == "New 0 Name"
  {
    "New " + NatToString(ParseNat(LeadingDigits(singular))) + " Name"
  }

  /** The `new_item_name` label with the singular name in place of the placeholder. */
  function NewItemName(singular: string): (text: string)
    ensures |text| == |singular| + 9
    ensures text[..4] == "New " && text[4..4 + |singular|] == singular
    ensures text[4 + |singular|..] == " Name"
  {
    "New " + singular + " Name"
  }

  /** For an ordinary taxonomy name, the `%d` label loses the name. */
  lemma NewItemNameLosesName()
    ensures NewItemNameAsWritten("Priority") == "New 0 Name"
    ensures NewItemName("Priority") == "New Priority Name"
  {
  }

  /** The label keys the constructor writes, in its order. */
  const LabelKeys: seq<string> := [
    "name", "singular_name", "search_items", "all_items", "parent_item", "parent_item_colon",
    "edit_item", "update_item", "add_new_item", "new_item_name", "menu_name"
  ]

  /** The labels the constructor generates for a taxonomy called `name`. */
  function Labels(name: string): (labels: seq<(Key, Value)>)
    ensures |labels| == |LabelKeys|
    ensures forall i | 0 <= i < |labels| :: labels[i].0 == Name(LabelKeys[i]) && labels[i].1.Text?
  {
    var singular, plural := name, Plural(name);
    [
      (Name("name"), Text(plural)),
      (Name("singular_name"), Text(singular)),
      (Name("search_items"), Text("Search " + plural)),
      (Name("all_items"), Text("All " + plural)),
      (Name("parent_item"), Text("Parent " + singular)),
      (Name("parent_item_colon"), Text("Parent " + singular + ":")),
      (Name("edit_item"), Text("Edit " + singular)),
      (Name("update_item"), Text("Update " + singular)),
      (Name("add_new_item"), Text("Add New " + singular)),
      (Name("new_item_name"), Text(NewItemName(singular))),
      (Name("menu_name"), Text(plural))
    ]
  }

  /** No label key is written twice. */
  lemma LabelsUnique(name: string)
    ensures UniqueKeys(Labels(name))
  {
    var ks := Keys(Labels(name));
    LabelKeysDistinct();
    forall i, j | 0 <= i < j < |ks|
      ensures ks[i] != ks[j]
    {
      assert ks[i] == Name(LabelKeys[i]) && ks[j] == Name(LabelKeys[j]);
    }
  }

  lemma LabelKeysDistinct()
    ensures Distinct(LabelKeys)
  {
  }

  /**
   * The generated labels: `name` and `menu_name` are the plural, the others
   * a fixed word followed by the plural or the singular.
   */
  lemma LabelTexts(name: string)
    ensures var labels, plural := Labels(name), Plural(name);
            && Lookup(labels, Name("name")) == Some(Text(plural))
            && Lookup(labels, Name("singular_name")) == Some(Text(name))
            && Lookup(labels, Name("search_items")) == Some(Text("Search " + plural))
            && Lookup(labels, Name("all_items")) == Some(Text("All " + plural))
            && Lookup(labels, Name("parent_item")) == Some(Text("Parent " + name))
            && Lookup(labels, Name("parent_item_colon")) == Some(Text("Parent " + name + ":"))
            && Lookup(labels, Name("edit_item")) == Some(Text("Edit " + name))
            && Lookup(labels, Name("update_item")) == Some(Text("Update " + name))
            && Lookup(labels, Name("add_new_item")) == Some(Text("Add New " + name))
            && Lookup(labels, Name("new_item_name")) == Some(Text(NewItemName(name)))
            && Lookup(labels, Name("menu_name")) == Some(Text(plural))
  {
    var labels := Labels(name);
    LabelsUnique(name);
    LookupEntry(labels, 0);
    LookupEntry(labels, 1);
    LookupEntry(labels, 2);
    LookupEntry(labels, 3);
    LookupEntry(labels, 4);
    LookupEntry(labels, 5);
    LookupEntry(labels, 6);
    LookupEntry(labels, 7);
    LookupEntry(labels, 8);
    LookupEntry(labels, 9);
    LookupEntry(labels, 10);
  }

  /** The keys of the default arguments, once the repeated `show_admin_column` has collapsed. */
  const DefaultKeys: seq<string> := ["labels", "show_ui", "show_admin_column", "rewrite", "show_in_rest", "show_in_quick_edit"]

  /** The `rewrite` argument: no front prefix, the taxonomy slug as the URL base. */
  function Rewrite(slug: string): (rewrite: Value) {
    Table([(Name("with_front"), Bool(false)), (Name("slug"), Text(slug))])
  }

  /** The default arguments, each key once. */
  function DefaultEntries(name: string, slug: string): (entries: seq<(string, Value)>) {
    [
      ("labels", Table(Labels(name))),
      ("show_ui", Bool(true)),
      ("show_admin_column", Bool(true)),
      ("rewrite", Rewrite(slug)),
      ("show_in_rest", Bool(true)),
      ("show_in_quick_edit", Bool(true))
    ]
  }

  /** The default-arguments literal as written: `show_admin_column` is written again at the end. */
  function DefaultLiteral(name: string, slug: string): (literal: seq<(string, Value)>) {
    DefaultEntries(name, slug) + [("show_admin_column", Bool(true))]
  }

  /** The default arguments: the literal built entry by entry, as PHP builds it. */
  function DefaultArgs(name: string, slug: string): (args: seq<(string, Value)>)
    ensures UniqueKeys(args)
  {
    Merge([], DefaultLiteral(name, slug))
  }

  lemma DefaultKeysDistinct()
    ensures Distinct(DefaultKeys)
  {
    assert DefaultKeys[1][0] != DefaultKeys[3][0];
  }

  /** The repeated key collapses: six arguments, each with its value from the literal. */
  lemma DefaultArgsCollapse(name: string, slug: string)
    ensures DefaultArgs(name, slug) == DefaultEntries(name, slug)
    ensures Keys(DefaultArgs(name, slug)) == DefaultKeys
  {
    var entries := DefaultEntries(name, slug);
    assert Keys(entries) == DefaultKeys by {
      assert forall i | 0 <= i < 6 :: Keys(entries)[i] == DefaultKeys[i];
    }
    DefaultKeysDistinct();
    assert [] + entries == entries;
    MergeFreshKeys([], entries);
    MergeAppend([], entries, ("show_admin_column", Bool(true)));
    LookupEntry(entries, 2);
    SetSameValue(entries, "show_admin_column", Bool(true));
  }

  /** What each default argument holds. */
  lemma DefaultArgValues(name: string, slug: string)
    ensures var args := DefaultArgs(name, slug);
            && Lookup(args, "labels") == Some(Table(Labels(name)))
            && Lookup(args, "show_ui") == Some(Bool(true))
            && Lookup(args, "show_admin_column") == Some(Bool(true))
            && Lookup(args, "rewrite") == Some(Rewrite(slug))
            && Lookup(args, "show_in_rest") == Some(Bool(true))
            && Lookup(args, "show_in_quick_edit") == Some(Bool(true))
  {
    var args := DefaultArgs(name, slug);
    DefaultArgsCollapse(name, slug);
    LookupEntry(args, 0);
    LookupEntry(args, 1);
    LookupEntry(args, 2);
    LookupEntry(args, 3);
    LookupEntry(args, 4);
    LookupEntry(args, 5);
  }

  /** `array_merge($defaults, $user_args)`: the arguments handed to `register_taxonomy`. */
  function TaxonomyArgs(name: string, slug: string, userArgs: seq<(string, Value)>): (args: seq<(string, Value)>)
    requires UniqueKeys(userArgs)
    ensures UniqueKeys(args)
    ensures Keys(args) == DefaultKeys + FilterOut(Keys(userArgs), DefaultKeys)
  {
    var defaults := DefaultArgs(name, slug);
    DefaultArgsCollapse(name, slug);
    MergeKeys(defaults, userArgs);
    Merge(defaults, userArgs)
  }

  /** Each argument is the caller's where the caller gave one, and the default otherwise. */
  lemma UserArgsWin(name: string, slug: string, userArgs: seq<(string, Value)>, k: string)
    requires UniqueKeys(userArgs)
    ensures Lookup(TaxonomyArgs(name, slug, userArgs), k) ==
              if k in Keys(userArgs) then Lookup(userArgs, k) else Lookup(DefaultArgs(name, slug), k)
  {
    MergeLookup(DefaultArgs(name, slug), userArgs, k);
  }

  /**
   * A caller's `labels` replaces the generated labels as a whole: none of
   * the generated ones survive beside it.
   */
  lemma UserLabelsReplaceGenerated(name: string, slug: string, userArgs: seq<(string, Value)>, labels: Value)
    requires UniqueKeys(userArgs)
    requires Lookup(userArgs, "labels") == Some(labels)
    ensures Lookup(TaxonomyArgs(name, slug, userArgs), "labels") == Some(labels)
  {
    UserArgsWin(name, slug, userArgs, "labels");
  }

  /** Without caller arguments the defaults are registered unchanged. */
  lemma NoUserArgs(name: string, slug: string)
    ensures TaxonomyArgs(name, slug, []) == DefaultArgs(name, slug)
  {
  }

  /**
   * A key as PHP stores it: a string key that is the canonical decimal form
   * of an integer has been converted to that integer.
   */
  predicate IsStoredKey(k: Key) {
    k.Name? ==> !(IsIntString(k.s) && k.s == IntToString(ParseInt(k.s)))
  }

  /** Every key of the array is a stored key. */
  predicate StoredKeys<V>(a: seq<(Key, V)>) {
    forall i | 0 <= i < |a| :: IsStoredKey(a[i].0)
  }

  /** "0" is stored as the integer key 0, while "05" and "-0" stay string keys. */
  lemma IntegerStringKeys()
    ensures !IsStoredKey(Name("0")) && IsStoredKey(Name("05")) && IsStoredKey(Name("-0"))
  {
    assert IntToString(0) == "0";
    assert IntToString(ParseInt("05")) == "5" by {
      assert ParseNat("05") == ParseNat("0") * 10 + 5;
    }
    assert IntToString(ParseInt("-0")) == "0" by {
      assert ParseNat("-0"[1..]) == 0;
    }
  }


  /**
   * The meta boxes the constructor keeps: none for an empty `$meta`, the
   * whole of `$meta` as one box when it has no key 0, and each of its values
   * in order when it has.
   */
  function MetaBoxes(meta: seq<(Key, Value)>): (boxes: seq<Value>)
    requires StoredKeys(meta)
    ensures boxes == [] <==> meta == []
    ensures meta != [] && Index(0) !in Keys(meta) ==> boxes == [Table(meta)]
    ensures Index(0) in Keys(meta) ==> |boxes| == |meta| && forall i | 0 <= i < |meta| :: boxes[i] == meta[i].1
  {
    if meta == [] then []
    else if Index(0) !in Keys(meta) then [Table(meta)]
    else Values(meta)
  }

  /**
   * The constructor's collection of meta boxes: `$meta` itself when it has
   * no key 0, otherwise each of its values in a `foreach`.
   */
  method CollectMetaBoxes(meta: seq<(Key, Value)>) returns (boxes: seq<Value>)
    requires StoredKeys(meta)
    ensures boxes == MetaBoxes(meta)
  {
    boxes := [];
    if meta != [] {
      if Index(0) !in Keys(meta) {
        boxes := boxes + [Table(meta)];
      } else {
        var i := 0;
        while i < |meta|
          invariant 0 <= i <= |meta|
          invariant boxes == Values(meta[..i])
        {
          assert meta[..i + 1] == meta[..i] + [meta[i]];
          ValuesAppend(meta[..i], meta[i]);
          boxes := boxes + [meta[i].1];
          i := i + 1;
        }
        assert meta[..i] == meta;
      }
    }
  }

  /** One registered taxonomy with the state its callbacks read. */
  class Taxonomy {
    var slug: string
    var postSlug: string
    var singularName: string
    var metaBoxes: seq<Value>
    /** `None` while the property is unset (PHP `null`). */
    var template: Option<string>
    /** What was handed to `register_taxonomy`. */
    var registeredArgs: seq<(string, Value)>

    /**
     * The constructor: records the names, registers the arguments, collects
     * the meta boxes and keeps a non-empty template.
     */
    constructor (name: string, slug: string, postSlug: string, userArgs: seq<(string, Value)>,
                 meta: seq<(Key, Value)>, template: string)
      requires UniqueKeys(userArgs)
      requires StoredKeys(meta)
      ensures this.slug == slug && this.postSlug == postSlug && singularName == name
      ensures registeredArgs == TaxonomyArgs(name, slug, userArgs)
      ensures metaBoxes == MetaBoxes(meta)
      ensures this.template == if IsEmpty(template) then None else Some(template)
    {
      this.slug := slug;
      this.postSlug := postSlug;
      singularName := name;
      registeredArgs := TaxonomyArgs(name, slug, userArgs);
      var boxes := CollectMetaBoxes(meta);
      metaBoxes := boxes;
      this.template := if IsEmpty(template) then None else Some(template);
    }

    /** The sortable-column key of this taxonomy. */
    function ColumnKey(): (key: string)
      reads this
    {
      "taxonomy-" + slug
    }

    /**
     * `custom_template` on `template_include`: on an archive of this
     * taxonomy (`archive` names the taxonomy whose archive is shown) the
     * stored template replaces the one WordPress chose.
     */
    function CustomTemplate(chosen: string, archive: Option<string>): (r: Option<string>)
      reads this
      ensures archive == Some(slug) ==> r == template
      ensures archive != Some(slug) ==> r == Some(chosen)
    {
      if archive == Some(slug) then template else Some(chosen)
    }

    /** `register_sortable_columns`: the taxonomy's column sorts by itself. */
    function RegisterSortableColumns(columns: seq<(string, string)>): (r: seq<(string, string)>)
      reads this
      ensures Lookup(r, ColumnKey()) == Some(ColumnKey())
      ensures forall k | k != ColumnKey() :: Lookup(r, k) == Lookup(columns, k)
      ensures Keys(r) == if ColumnKey() in Keys(columns) then Keys(columns) else Keys(columns) + [ColumnKey()]
    {
      Set(columns, ColumnKey(), ColumnKey())
    }

    /**
     * `taxonomy_orderby` on `posts_orderby`. `queryOrderby` is the query's
     * `orderby` (`None` when it is not set) and `order` is its `order`
     * (the empty string when it is not set).
     */
    function TaxonomyOrderby(orderby: string, queryOrderby: Option<string>, order: string): (r: string)
      reads this
      ensures queryOrderby != Some(ColumnKey()) ==> r == orderby
      ensures queryOrderby == Some(ColumnKey()) ==> r == TermNameSubquery(slug) + Direction(order)
    {
      if queryOrderby == Some(ColumnKey()) then TermNameSubquery(slug) + Direction(order) else orderby
    }
  }

  /** Registering the sortable column twice is registering it once. */
  lemma SortableIdempotent(t: Taxonomy, columns: seq<(string, string)>)
    ensures t.RegisterSortableColumns(t.RegisterSortableColumns(columns)) == t.RegisterSortableColumns(columns)
  {
    SetIdempotent(columns, t.ColumnKey(), t.ColumnKey());
  }

  /**
   * The subquery that orders posts by the names of their terms in taxonomy
   * `slug`, with the table prefix and the line breaks left out.
   */
  function TermNameSubquery(slug: string): (q: string)
    ensures |q| > 0 && q[|q| - 1] == ' '
  {
    "(SELECT GROUP_CONCAT(name ORDER BY name ASC) FROM term_relationships"
    + " INNER JOIN term_taxonomy USING (term_taxonomy_id) INNER JOIN terms USING (term_id)"
    + " WHERE posts.ID = object_id AND taxonomy = '" + slug + "' GROUP BY object_id) "
  }

  /** The sort direction: `ASC` when the upper-cased order is `ASC`, `DESC` for anything else. */
  function Direction(order: string): (d: string)
    ensures d == "ASC" <==> Upper(order) == "ASC"
    ensures d == "ASC" || d == "DESC"
  {
    if Upper(order) == "ASC" then "ASC" else "DESC"
  }

  /**
   * When the column matches, the order clause ends in `ASC` exactly when
   * the requested order is "asc" in any mix of cases, and in `DESC`
   * otherwise, an unset order included.
   */
  lemma OrderbyDirection(t: Taxonomy, orderby: string, order: string)
    ensures var r := t.TaxonomyOrderby(orderby, Some(t.ColumnKey()), order);
            var ascending := |order| == 3 && (order[0] == 'a' || order[0] == 'A')
                             && (order[1] == 's' || order[1] == 'S') && (order[2] == 'c' || order[2] == 'C');
            && |r| >= 4
            && (r[|r| - 3..] == "ASC" <==> ascending)
            && (!ascending ==> r[|r| - 4..] == "DESC")
  {
    UpperIsAsc(order);
    var q := TermNameSubquery(t.slug);
    var r := t.TaxonomyOrderby(orderby, Some(t.ColumnKey()), order);
    var d := Direction(order);
    assert r == q + d;
    assert r[|r| - |d|..] == d;
    if d == "DESC" {
      assert r[|r| - 3..] == "ESC";
    }
  }
}
