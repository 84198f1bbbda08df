/**
 * `Task_Post_Type`'s callbacks for the admin list of tasks: the column map
 * (an ordered PHP array from column key to column title), the sortable
 * order column, the order cell, and the list query.
 */
module TaskPostType {
  import opened PhpArrays
  import opened PhpStrings

  /** An admin list's columns: column key to title, in display order. */
  type Columns = seq<(string, string)>

  const MenuOrder := "menu_order"

  /** The titles `add_list_view_columns` assigns, in the order it assigns them. */
  const ColumnTitles: Columns := [
    ("author", "Created by"),
    ("taxonomy-task-priority", "Priority"),
    ("taxonomy-task-status", "Status"),
    ("taxonomy-task-type", "Type"),
    ("date", "Created")
  ]

  /**
   * The keys `add_list_view_columns` puts first: the first input column,
   * then `menu_order` (just `menu_order` when that is the first column or
   * there is none).
   */
  function LeadKeys(columns: Columns): (lead: seq<string>)
    ensures MenuOrder in lead
    ensures columns != [] ==> lead[0] == columns[0].0
  {
    if columns == [] || columns[0].0 == MenuOrder then [MenuOrder] else [columns[0].0, MenuOrder]
  }

  /** The five title assignments are the merge of the title table. */
  lemma TitleAssignmentsAreMerge(m: Columns)
    ensures Merge(m, ColumnTitles)
         == Set(Set(Set(Set(Set(m, "author", "Created by"), "taxonomy-task-priority", "Priority"),
                        "taxonomy-task-status", "Status"), "taxonomy-task-type", "Type"), "date", "Created")
  {
    var t := ColumnTitles;
    assert t[1..][1..][1..][1..][1..] == [];
  }

  lemma ColumnTitlesUnique()
    ensures UniqueKeys(ColumnTitles)
    ensures Keys(ColumnTitles) == ["author", "taxonomy-task-priority", "taxonomy-task-status", "taxonomy-task-type", "date"]
  {
  }

  /** None of the five titled columns is the order column. */
  lemma MenuOrderUntitled()
    ensures MenuOrder !in Keys(ColumnTitles)
  {
    ColumnTitlesUnique();
    assert forall i | 0 <= i < 5 :: |Keys(ColumnTitles)[i]| != |MenuOrder|;
  }

  /** `array_slice($columns, 0, 1)`: the first column alone. */
  function FirstColumn(columns: Columns): (r: Columns)
    ensures |r| == if columns == [] then 0 else 1
    ensures r <= columns
  {
    if columns == [] then [] else columns[..1]
  }

  /** What `array_shift($columns)` leaves: every column but the first. */
  function OtherColumns(columns: Columns): (r: Columns)
    ensures |r| == if columns == [] then 0 else |columns| - 1
    ensures FirstColumn(columns) + r == columns
  {
    if columns == [] then [] else columns[1..]
  }

  /**
   * The `manage_task_posts_columns` filter: keep the first column, put the
   * order column right after it, then the other columns in their order,
   * then whichever of the five titled columns were missing; the five get
   * their titles, `menu_order` keeps a title it already had after the first
   * column and is titled "Order" otherwise, every other column keeps its
   * title.
   */
  method AddListViewColumns(columns: Columns) returns (r: Columns)
    requires UniqueKeys(columns)
    ensures UniqueKeys(r)
    ensures Keys(r) == LeadKeys(columns) + FilterOut(Keys(columns), LeadKeys(columns))
                       + FilterOut(Keys(ColumnTitles), LeadKeys(columns) + Keys(columns))
    ensures columns != [] ==> r[0].0 == columns[0].0
    ensures columns != [] && columns[0].0 != MenuOrder ==> r[1].0 == MenuOrder
    ensures forall i | 0 <= i < |ColumnTitles| :: Lookup(r, ColumnTitles[i].0) == Some(ColumnTitles[i].1)
    ensures Lookup(r, MenuOrder) ==
              if columns != [] && MenuOrder in Keys(columns[1..]) then Lookup(columns[1..], MenuOrder)
              else Some("Order")
    ensures forall k | k != MenuOrder && k !in Keys(ColumnTitles) :: Lookup(r, k) == Lookup(columns, k)
  {
    // The `array_key_exists` test with three arguments never assigns (see the README).

    // Insert the order column after the first column.
    var first := FirstColumn(columns);
    first := Set(first, MenuOrder, "Order");
    var rest := OtherColumns(columns);
    var merged := Merge(first, rest);

    // Change column titles.
    r := Set(merged, "author", "Created by");
    r := Set(r, "taxonomy-task-priority", "Priority");
    r := Set(r, "taxonomy-task-status", "Status");
    r := Set(r, "taxonomy-task-type", "Type");
    r := Set(r, "date", "Created");

    TitleAssignmentsAreMerge(merged);
    ArrangedKeys(columns);
    ArrangedTitles(columns);
  }

  /** The first column with the order column after it. */
  lemma FirstWithOrder(columns: Columns)
    requires UniqueKeys(columns)
    ensures Keys(Set(FirstColumn(columns), MenuOrder, "Order")) == LeadKeys(columns)
    ensures UniqueKeys(Set(FirstColumn(columns), MenuOrder, "Order"))
  {
    if columns != [] {
      assert Keys(FirstColumn(columns)) == [columns[0].0];
    }
  }

  /** The columns once the order column is in place, before the titles are set. */
  function OrderColumnPlaced(columns: Columns): (placed: Columns) {
    Merge(Set(FirstColumn(columns), MenuOrder, "Order"), OtherColumns(columns))
  }

  /** Where the order column lands: after the first column, the others following. */
  lemma OrderColumnKeys(columns: Columns)
    requires UniqueKeys(columns)
    ensures UniqueKeys(OrderColumnPlaced(columns))
    ensures Keys(OrderColumnPlaced(columns)) == LeadKeys(columns) + FilterOut(Keys(columns), LeadKeys(columns))
  {
    var lead := LeadKeys(columns);
    var first := Set(FirstColumn(columns), MenuOrder, "Order");
    var rest := OtherColumns(columns);
    FirstWithOrder(columns);
    if columns != [] {
      UniqueKeysTail(columns);
      FilterOutSkipsExcludedHead(columns[0].0, Keys(rest), lead);
    }
    MergeKeys(first, rest);
  }

  /** What each column holds once the order column is in place. */
  lemma OrderColumnValues(columns: Columns, k: string)
    requires UniqueKeys(columns)
    ensures k == MenuOrder ==>
              Lookup(OrderColumnPlaced(columns), k) ==
                if columns != [] && MenuOrder in Keys(columns[1..]) then Lookup(columns[1..], MenuOrder)
                else Some("Order")
    ensures k != MenuOrder ==> Lookup(OrderColumnPlaced(columns), k) == Lookup(columns, k)
  {
    var first := Set(FirstColumn(columns), MenuOrder, "Order");
    var rest := OtherColumns(columns);
    if columns != [] {
      UniqueKeysTail(columns);
    }
    MergeLookup(first, rest, k);
  }

  /** The five titles set on an array that already has unique keys. */
  lemma TitlesAssigned(merged: Columns)
    requires UniqueKeys(merged)
    ensures UniqueKeys(Merge(merged, ColumnTitles))
    ensures Keys(Merge(merged, ColumnTitles)) == Keys(merged) + FilterOut(Keys(ColumnTitles), Keys(merged))
    ensures forall i | 0 <= i < |ColumnTitles| ::
              Lookup(Merge(merged, ColumnTitles), ColumnTitles[i].0) == Some(ColumnTitles[i].1)
    ensures forall k | k !in Keys(ColumnTitles) :: Lookup(Merge(merged, ColumnTitles), k) == Lookup(merged, k)
  {
    var r := Merge(merged, ColumnTitles);
    ColumnTitlesUnique();
    MergeKeys(merged, ColumnTitles);
    forall i | 0 <= i < |ColumnTitles|
      ensures Lookup(r, ColumnTitles[i].0) == Some(ColumnTitles[i].1)
    {
      MergeLookup(merged, ColumnTitles, ColumnTitles[i].0);
      LookupEntry(ColumnTitles, i);
    }
    forall k | k !in Keys(ColumnTitles)
      ensures Lookup(r, k) == Lookup(merged, k)
    {
      MergeLookup(merged, ColumnTitles, k);
    }
  }

  /** Where each column of `add_list_view_columns` ends up. */
  lemma ArrangedKeys(columns: Columns)
    requires UniqueKeys(columns)
    ensures var r := Merge(OrderColumnPlaced(columns), ColumnTitles);
            && UniqueKeys(r)
            && Keys(r) == LeadKeys(columns) + FilterOut(Keys(columns), LeadKeys(columns))
                          + FilterOut(Keys(ColumnTitles), LeadKeys(columns) + Keys(columns))
            && (columns != [] ==> r[0].0 == columns[0].0)
            && (columns != [] && columns[0].0 != MenuOrder ==> r[1].0 == MenuOrder)
  {
    var lead := LeadKeys(columns);
    var merged := OrderColumnPlaced(columns);
    var r := Merge(merged, ColumnTitles);
    OrderColumnKeys(columns);
    TitlesAssigned(merged);
    forall x | x in Keys(ColumnTitles)
      ensures x in Keys(merged) <==> x in lead + Keys(columns)
    {
      assert x in FilterOut(Keys(columns), lead) <==> x in Keys(columns) && x !in lead;
    }
    FilterOutSameExclusion(Keys(ColumnTitles), Keys(merged), lead + Keys(columns));
    ConcatAssociative(lead, FilterOut(Keys(columns), lead), FilterOut(Keys(ColumnTitles), lead + Keys(columns)));
    if columns != [] {
      assert Keys(r)[0] == lead[0];
      if columns[0].0 != MenuOrder {
        assert Keys(r)[1] == lead[1];
      }
    }
  }

  /** What each column of `add_list_view_columns` is titled. */
  lemma ArrangedTitles(columns: Columns)
    requires UniqueKeys(columns)
    ensures var r := Merge(OrderColumnPlaced(columns), ColumnTitles);
            && (forall i | 0 <= i < |ColumnTitles| :: Lookup(r, ColumnTitles[i].0) == Some(ColumnTitles[i].1))
            && Lookup(r, MenuOrder) ==
                 (if columns != [] && MenuOrder in Keys(columns[1..]) then Lookup(columns[1..], MenuOrder)
                  else Some("Order"))
            && forall k | k != MenuOrder && k !in Keys(ColumnTitles) :: Lookup(r, k) == Lookup(columns, k)
  {
    var merged := OrderColumnPlaced(columns);
    OrderColumnKeys(columns);
    OrderColumnValues(columns, MenuOrder);
    forall k | k != MenuOrder
      ensures Lookup(merged, k) == Lookup(columns, k)
    {
      OrderColumnValues(columns, k);
    }
    TitlesAssigned(merged);
    MenuOrderUntitled();
  }

  /**
   * `order_column_register_sortable`: the order column sorts by
   * `menu_order`; every other entry is unchanged, and the key is appended
   * when it was missing.
   */
  function OrderColumnRegisterSortable(columns: Columns): (r: Columns)
    ensures Lookup(r, MenuOrder) == Some(MenuOrder)
    ensures forall k | k != MenuOrder :: Lookup(r, k) == Lookup(columns, k)
    ensures Keys(r) == if MenuOrder in Keys(columns) then Keys(columns) else Keys(columns) + [MenuOrder]
  {
    Set(columns, MenuOrder, MenuOrder)
  }

  /** Registering the order column as sortable twice is registering it once. */
  lemma OrderColumnSortableIdempotent(columns: Columns)
    ensures OrderColumnRegisterSortable(OrderColumnRegisterSortable(columns)) == OrderColumnRegisterSortable(columns)
  {
    SetIdempotent(columns, MenuOrder, MenuOrder);
  }

  /**
   * What `output_list_view_columns` prints in a cell of the list: the
   * task's menu order in the order column, left blank when it is 0, and
   * nothing in any other column.
   */
  function ListColumnText(columnName: string, menuOrder: int): (text: string)
    ensures columnName != MenuOrder ==> text == ""
    ensures columnName == MenuOrder ==> (text == "" <==> menuOrder == 0)
    ensures text != "" ==> IsIntString(text) && ParseInt(text) == menuOrder
    ensures columnName == MenuOrder && menuOrder != 0 ==> text == IntToString(menuOrder)
  {
    IntRoundTrip(menuOrder);
    if columnName == MenuOrder then
      (if menuOrder == 0 then "" else IntToString(menuOrder))
    else ""
  }

  /**
   * `admin_post_query` on the `pre_get_posts` hook. `isAdmin` is `is_admin()`,
   * `queryPostType` the query's `post_type` and `isMainQuery` its
   * `is_main_query()`. It never alters the query.
   */
  function AdminPostQuery<Q>(query: Q, isAdmin: bool, queryPostType: string, isMainQuery: bool): (r: Option<Q>)
    ensures r == None <==> !isAdmin && queryPostType != "task" && !isMainQuery
    ensures r != None ==> r == Some(query)
  {
    if !isAdmin && "task" != queryPostType && !isMainQuery then None else Some(query)
  }
}
