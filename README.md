# Task Interface Management, modelled in Dafny

This project models the rules at the core of the WordPress plugin
"Task Interface Management". The plugin adds a `task` post type with
taxonomies for status, priority and type, and its own user capabilities,
granted on activation and removed on deactivation. It also contains a
`Status` class for a custom "complete" post status. The bootstrap
(src/class-task-interface-management.php:52-58) never loads that class,
and the class's own registration of the status is commented out
(src/class-post-status.php:37). So none of its callbacks run in the
shipped plugin, and the model of `Status` describes what the class would
do if it were loaded. The hook wiring is left out. What remains is
modelled on plain values: a post status string, the slugs of a post's
task-status terms, a map from role to capabilities, and PHP's ordered
arrays as sequences of key/value pairs.

- `php_strings.dfy` (`PhpStrings`) holds the string primitives the plugin uses:
  - `strpos(...) !== false`;
  - `empty()` on a string;
  - `strtoupper`;
  - how `echo` writes an integer.
- `php_arrays.dfy` (`PhpArrays`) holds PHP ordered arrays:
  - keyed assignment (an existing key keeps its place, a new one is appended);
  - lookup;
  - the key sequence that `array_key_exists` searches and the values a `foreach` visits;
  - `array_merge` for string keys, with its key order and "later value wins" proved.
- `post_status.dfy` (`PostStatus`) models `Status`:
  - `manage_post_status`, as a method on a task post. Updating the post re-fires the same hook, modelled as a mutually recursive call.
  - The `gettext` rewrite of "Publish" into "Complete".
  - The status selection in the editor dropdown.
- `user_capabilities.dfy` (`UserCapabilities`) models `User_Capabilities`. It is a role registry whose `switch_access` adds or removes the 17 plugin capabilities in nested loops.
- `task_post_type.dfy` (`TaskPostType`) models the list-screen callbacks of `Task_Post_Type`:
  - the column rewrite;
  - the order cell;
  - the admin query filter;
  - the sortable order column. Its callback `order_column_register_sortable` is defined, but `hooks()` (src/class-task-post-type.php:53-61) never adds it, so the column is never registered as sortable.
- `taxonomy.dfy` (`Taxonomy`) models `Taxonomy`:
  - the labels and registration arguments;
  - the meta boxes collected by the constructor;
  - the archive template;
  - the sortable taxonomy column and its `ORDER BY` clause.

Translation calls (`__()`, `esc_html__()`) are the identity. WordPress
lookups become parameters:
- `get_the_terms` becomes the post's term slugs;
- `get_role` becomes membership in the role map;
- `is_tax` becomes the taxonomy whose archive is shown;
- `is_admin` becomes a boolean;
- the current screen base and the global `$post_type` become strings.

WordPress writes become updates of the modelled state:
- `wp_update_post` updates the post status;
- `add_cap` and `remove_cap` update the role map.

## Model

| member | source | states |
|---|---|---|
| PhpStrings.Contains | src/class-post-status.php:76-80 | `strpos(...) !== false` is true only for a needle no longer than the string, and true whenever the string starts with the needle |
| PhpStrings.ContainsStep | src/class-post-status.php:76-80 | a needle not at the front occurs in a string exactly when it occurs in the string without its first character |
| PhpStrings.IsEmpty | src/class-post-status.php:166 | `empty()` holds for a string exactly when it is "" or the numeral written for 0 |
| PhpStrings.Upper | src/class-taxonomy.php:373 | `strtoupper` keeps the length and upper-cases each ASCII letter, leaving other characters alone |
| PhpStrings.UpperIsAsc | src/class-taxonomy.php:373 | the upper-cased order is `ASC` exactly when the order is "asc" in any mix of cases |
| PhpStrings.IntToString | src/class-task-post-type.php:318 | `echo` of an integer writes a well-formed decimal numeral: a minus sign exactly for negative integers, "0" for zero, and otherwise no leading zero |
| PhpStrings.IntRoundTrip | src/class-task-post-type.php:318 | reading back the numeral written for an integer gives that integer |
| Taxonomy.IntegerStringKeys | src/class-taxonomy.php:128 | the string "0" is stored as the integer key 0, while "05" and "-0" stay string keys |
| PhpArrays.Lookup | src/class-task-post-type.php:287-296 | a lookup finds a value exactly when the key is among the array's keys, and the value found is stored under that key |
| PhpArrays.Set | src/class-task-post-type.php:287 | assignment leaves the key order as it was for an existing key and appends a new key; the key then holds the new value and every other key keeps its value |
| PhpArrays.SetIdempotent | src/class-taxonomy.php:344 | assigning the same value to the same key a second time changes nothing |
| PhpArrays.Merge | src/class-task-post-type.php:289 | `array_merge` of an array with unique keys again has unique keys |
| PhpArrays.MergeKeys | src/class-task-post-type.php:289 | the keys of `array_merge($a, $b)` are those of `$a`, in order, then the keys of `$b` not in `$a`, in order |
| PhpArrays.MergeLookup | src/class-taxonomy.php:106-120 | in `array_merge($a, $b)` a key of `$b` has `$b`'s value and any other key has `$a`'s |
| PostStatus.ReplacementsHaveOnePair | src/class-post-status.php:29-32 | the replacements literal, which writes "Publish" twice, holds the single pair "Publish" → "Complete" |
| PostStatus.HasCompletedTerm | src/class-post-status.php:78-84 | the terms count as completed exactly when some attached slug mentions "complete", which needs at least one term |
| PostStatus.StatusesClassified | src/class-post-status.php:25 | the custom status `task-complete` contains "complete" and `private` does not |
| PostStatus.Reconciled | src/class-post-status.php:76-97 | the resulting status contains "complete" exactly when some term slug does; the status is unchanged when status and terms already agree; a changed status is `task-complete` or `private` |
| PostStatus.ReconciledIsFixedPoint | src/class-post-status.php:87-97 | reconciling an already reconciled status changes nothing, so the re-fired hook settles in one step |
| PostStatus.TermOrderIrrelevant | src/class-post-status.php:78-84 | stopping at the first match makes no difference: any reordering of the term slugs gives the same decision and the same status |
| PostStatus.FindCompletedTerm | src/class-post-status.php:78-84 | the loop with its early `break` finds a completed term exactly when some slug contains "complete" |
| PostStatus.TaskPost.ManagePostStatus | src/class-post-status.php:73-99 | the post ends in the reconciled status of its old status with its terms unchanged, after one update when the status had to change and none otherwise, counting the updates of the re-fired hook |
| PostStatus.TaskPost.UpdatePostStatus | src/class-post-status.php:88-96 | the update stores the new status and re-runs the hook, which leaves the reconciled status |
| PostStatus.SaveTwice | src/class-post-status.php:38 | running the hook on a post it has just handled issues no update |
| PostStatus.StrTr | src/class-post-status.php:176 | `strtr` with one pair leaves text without the search word unchanged, and never shortens the text when the replacement is at least as long as the word |
| PostStatus.StrTrFirstMatch | src/class-post-status.php:176 | when the word first occurs at position `i`, `strtr` keeps the text before `i`, writes the replacement in place of the word and continues with the rest of the text; with `StrTr`'s no-match clause this fixes the rewrite of every text |
| PostStatus.CompleteThenNoPublish | src/class-post-status.php:176 | text without "Publish" still has none once "Complete" is put in front of it |
| PostStatus.NoPublishAfterRewrite | src/class-post-status.php:176 | after the rewrite no "Publish" is left in the text |
| PostStatus.TranslatePublishButton | src/class-post-status.php:155-178 | outside the `default` domain the translation is returned; for a non-empty post type other than `task` too; otherwise the original with every "Publish" turned into "Complete" |
| PostStatus.ScreenBaseIgnored | src/class-post-status.php:158-173 | as written, the screen base never changes the filter's result |
| PostStatus.TranslatePublishButtonOnPostScreen | src/class-post-status.php:158-178 | with the first test using `\|\|`, off the post screen or outside `default` the translation is returned unchanged; on the post screen the other two returns are as written, and otherwise the original has every "Publish" turned into "Complete" |
| PostStatus.RewriteOffPostScreen | src/class-post-status.php:158 | on the dashboard with no post type, the filter as written rewrites "Publish" and the corrected one does not |
| PostStatus.StatusDropdown | src/class-post-status.php:106-127 | nothing is printed for posts that are not tasks; tasks get the custom status added, with a selection shown exactly for `task-complete` ("Complete") and `publish` ("Published") |
| UserCapabilities.Switched | src/class-user-capabilities.php:86-107 | the same roles remain; unlisted roles are untouched; every listed existing role holds each plugin capability exactly when switching on; capabilities outside the list are never added or removed |
| UserCapabilities.RegisterIdempotent | src/class-user-capabilities.php:66-76 | registering twice leaves the roles as registering once |
| UserCapabilities.RegisterThenUnregister | src/class-user-capabilities.php:118-128 | registering then unregistering the same roles equals unregistering alone, and leaves none of the plugin capabilities on them |
| UserCapabilities.RoleRegistry.AddCap | src/class-user-capabilities.php:93 | `add_cap` grants one capability to one role and changes nothing else |
| UserCapabilities.RoleRegistry.RemoveCap | src/class-user-capabilities.php:102 | `remove_cap` takes one capability from one role and changes nothing else |
| UserCapabilities.RoleRegistry.SwitchAccess | src/class-user-capabilities.php:86-107 | the nested loops leave the registry as `Switched` describes |
| UserCapabilities.RoleRegistry.SwitchRole | src/class-user-capabilities.php:91-95 | the inner loop leaves one found role with every plugin capability added (or removed) and every other role as it was |
| UserCapabilities.RoleRegistry.Register | src/class-user-capabilities.php:66-76 | `register` switches the listed roles on, by default administrator, editor, author and contributor |
| UserCapabilities.RoleRegistry.Unregister | src/class-user-capabilities.php:118-128 | `unregister` switches the listed roles off, by default administrator, editor, author and contributor |
| UserCapabilities.ActivateThenDeactivate | src/class-user-capabilities.php:66-71 | with the default roles, activation then deactivation leaves none of the plugin capabilities on administrator, editor, author or contributor |
| TaskPostType.AddListViewColumns | src/class-task-post-type.php:279-300 | result keys, in order: the first column, `menu_order`, the other input columns, then whichever of the five titled columns were missing; the five hold their titles; `menu_order` is "Order" unless a later column gave it a title; every other column keeps its title |
| TaskPostType.ArrangedKeys | src/class-task-post-type.php:285-296 | after the rewrite the keys are unique: the first column, `menu_order`, the other columns in order, then the titled columns that were missing |
| TaskPostType.ArrangedTitles | src/class-task-post-type.php:285-296 | after the rewrite the five columns carry their titles, `menu_order` is titled "Order" unless a later column of that key overrides it, and every other column keeps its title |
| TaskPostType.FirstColumn | src/class-task-post-type.php:286 | `array_slice($columns, 0, 1)` is the first column alone, or nothing for an empty map, and is a prefix of the map |
| TaskPostType.OtherColumns | src/class-task-post-type.php:288 | what `array_shift` leaves is every column but the first, so the sliced first column followed by it is the whole map |
| TaskPostType.FirstWithOrder | src/class-task-post-type.php:286-287 | the sliced first column with `menu_order` added has keys: first column, then `menu_order` |
| TaskPostType.OrderColumnKeys | src/class-task-post-type.php:286-289 | after the merge the keys are the first column, `menu_order`, then the other input keys in their order |
| TaskPostType.OrderColumnValues | src/class-task-post-type.php:287-289 | after the merge `menu_order` holds a later column's title if there was one and "Order" otherwise; every other key holds its input title |
| TaskPostType.TitleAssignmentsAreMerge | src/class-task-post-type.php:292-296 | the five title assignments are the merge of the title table |
| TaskPostType.TitlesAssigned | src/class-task-post-type.php:292-296 | the five columns hold their titles, existing ones keep their place, missing ones are appended in order, and no other column changes |
| TaskPostType.MenuOrderUntitled | src/class-task-post-type.php:292-296 | the title assignments never touch `menu_order` |
| TaskPostType.OrderColumnRegisterSortable | src/class-task-post-type.php:335-341 | `menu_order` sorts by `menu_order`, every other entry is unchanged, and the key is appended when missing |
| TaskPostType.OrderColumnSortableIdempotent | src/class-task-post-type.php:337 | registering the sortable order column twice is registering it once |
| TaskPostType.ListColumnText | src/class-task-post-type.php:308-324 | nothing for other columns; in the order column nothing exactly when the order is 0, else the numeral `echo` writes for the order, which reads back as the order |
| TaskPostType.AdminPostQuery | src/class-task-post-type.php:352-357 | nothing is returned exactly when not in admin, the post type is not `task` and it is not the main query; otherwise the query itself |
| Taxonomy.Plural | src/class-taxonomy.php:87 | the plural is the name followed by one `s` |
| Taxonomy.LeadingDigits | src/class-taxonomy.php:101 | the longest run of digits at the front of the string |
| Taxonomy.NewItemNameAsWritten | src/class-taxonomy.php:101 | with `%d`, a name not starting with a digit yields "New 0 Name" |
| Taxonomy.NewItemName | src/class-taxonomy.php:101 | the corrected label is "New ", the singular name, then " Name" |
| Taxonomy.NewItemNameLosesName | src/class-taxonomy.php:101 | for the plugin's taxonomy name "Priority" the label as written is "New 0 Name", the corrected one "New Priority Name" |
| Taxonomy.Labels | src/class-taxonomy.php:90-103 | eleven labels, with the keys the constructor writes, in its order |
| Taxonomy.LabelsUnique | src/class-taxonomy.php:90-103 | no label key is written twice |
| Taxonomy.LabelTexts | src/class-taxonomy.php:86-103 | `name` and `menu_name` are the plural; the other labels are their fixed word followed by the plural or the singular, e.g. "Search " + plural and "Parent " + singular + ":" |
| Taxonomy.DefaultArgs | src/class-taxonomy.php:107-118 | the default arguments literal, built entry by entry, has unique keys |
| Taxonomy.DefaultArgsCollapse | src/class-taxonomy.php:110-117 | the second `show_admin_column` collapses into the first, leaving six arguments in their written order |
| Taxonomy.DefaultArgValues | src/class-taxonomy.php:107-118 | the defaults: the generated labels, `show_ui`, `show_admin_column`, `show_in_rest` and `show_in_quick_edit` true, and a rewrite without front prefix on the slug |
| Taxonomy.TaxonomyArgs | src/class-taxonomy.php:106-120 | the registered keys are the six default keys, then the caller's other keys in their order |
| Taxonomy.UserArgsWin | src/class-taxonomy.php:106-120 | each argument is the caller's where the caller gave one, the default otherwise |
| Taxonomy.UserLabelsReplaceGenerated | src/class-taxonomy.php:108-119 | a caller's `labels` replaces the generated labels as a whole |
| Taxonomy.NoUserArgs | src/class-taxonomy.php:106-120 | without caller arguments the defaults are registered unchanged |
| Taxonomy.MetaBoxes | src/class-taxonomy.php:127-136 | for an array whose keys are stored as PHP stores them: no boxes exactly for an empty `$meta`; without key 0 the whole of `$meta` is one box; with key 0 each value is a box, in order |
| Taxonomy.CollectMetaBoxes | src/class-taxonomy.php:127-134 | the constructor's `foreach` over `$meta` collects exactly the boxes `MetaBoxes` describes |
| Taxonomy.Taxonomy.constructor | src/class-taxonomy.php:81-142 | the constructor stores slug, post type and name, registers the merged arguments, collects the meta boxes with `CollectMetaBoxes` and keeps the template only when it is not empty |
| Taxonomy.Taxonomy.CustomTemplate | src/class-taxonomy.php:325-334 | on this taxonomy's archive the stored template, elsewhere the template WordPress chose |
| Taxonomy.Taxonomy.RegisterSortableColumns | src/class-taxonomy.php:342-347 | `taxonomy-<slug>` maps to itself, other entries are unchanged, and the key is appended when missing |
| Taxonomy.SortableIdempotent | src/class-taxonomy.php:344 | registering the sortable taxonomy column twice is registering it once |
| Taxonomy.Taxonomy.TaxonomyOrderby | src/class-taxonomy.php:357-379 | the clause is returned unchanged unless the query orders by `taxonomy-<slug>`; then it is the term-name subquery followed by the direction |
| Taxonomy.TermNameSubquery | src/class-taxonomy.php:364-372 | the subquery ends in a space, ready for the direction |
| Taxonomy.Direction | src/class-taxonomy.php:373 | `ASC` exactly when the upper-cased order is `ASC`, `DESC` otherwise |
| Taxonomy.OrderbyDirection | src/class-taxonomy.php:362-373 | when the column matches, the clause ends in `ASC` exactly when the order is "asc" in any case, and otherwise in `DESC`, an unset order included |

## Left out

- Hook wiring is not part of this model, because it only registers callbacks and has no behaviour of its own:
  - the bootstrap in `task-interface-management.php` and `src/class-task-interface-management.php`;
  - the `add_action`, `add_filter`, `register_post_type`, `register_taxonomy` and `register_post_status` calls.
- `src/class-assets.php` is not part of this model, because it only registers and enqueues assets and reads files.
- `src/class-register-task-post-type.php` is not part of this model, because it holds configuration arrays and is not loaded.
- HTML, JavaScript and SQL text is not modelled, because only its branches matter:
  - `taxonomy_edit_meta_field` and `add_posts_filter`;
  - the script printed by `post_status_add_to_dropdown`, reduced to the choice added and the choice selected;
  - the SQL of `taxonomy_orderby`, reduced to one line without table prefixes.
- `save_taxonomy_custom_meta` and `convert_filter_value_to_taxonomy_term_in_query` are not modelled, because they depend on the request, nonces, sanitizers and term lookups.
- The `error_log` call in `manage_post_status` is not modelled, because it is I/O only.
- `get_the_terms` returning `false` or a `WP_Error` is taken as no terms.
- Three-argument `array_key_exists` in `add_list_view_columns`: PHP rejects the extra argument, with a warning and `null` under PHP 7 and an `ArgumentCountError` under PHP 8.
  - The model follows PHP 7: the "Submitted By" assignment never happens.
  - The `author` title is overwritten afterwards either way.
- Integer keys in the column map and the taxonomy arguments are not modelled. `array_slice`, `array_shift` and `array_merge` renumber them; the model types these arrays with string keys.
- The array form of `$post_slug` and the `$create_admin_filter` flag are not modelled, because they only choose which hooks are added.
- `add_cap` is always called with grant `true`, so `WP_Role`'s explicit denials are not modelled.
- `PostStatus.TaskPost.ManagePostStatus` returns a count of `wp_update_post` calls in place of WordPress's own side effects on the post.
- Taxonomy.NewItemNameAsWritten: reads only the leading digits of the name. PHP's integer conversion also accepts leading whitespace and a sign, which no taxonomy name of this plugin has.
- Taxonomy.Labels: uses the corrected `new_item_name` label (see Findings).
- Taxonomy.Taxonomy.CustomTemplate: `is_tax` is reduced to the name of the taxonomy whose archive is shown.

## Findings

| source | as written | input that shows it | evidently intended | confidence | as-written member | corrected member |
|---|---|---|---|---|---|---|
| src/class-post-status.php:158 | the early return needs both a screen other than the post editor and a domain other than `default`, so it is subsumed by the domain test at :171 and the screen base never matters | screen base `dashboard`, domain `default`, no post type, original "Publish": on the dashboard, where the global `$post_type` is empty, "Publish" would be rewritten to "Complete" (`PostStatus.RewriteOffPostScreen`); any screen with an empty or `task` post type would be affected, not every screen, and there every `default`-domain string would be replaced by its untranslated `$original`. The defect is latent: the `Status` class that adds this filter is never loaded (src/class-task-interface-management.php:52-58) | return early when either holds, so only the post editor is rewritten | medium, not executed | PostStatus.TranslatePublishButton | PostStatus.TranslatePublishButtonOnPostScreen |
| src/class-taxonomy.php:101 | `sprintf` with `%d` converts the singular name to an integer | name "Priority" (class-task-post-type.php:105): the generated label is "New 0 Name" (`Taxonomy.NewItemNameLosesName`); every call site (class-task-post-type.php:77, :117, :157) passes its own `labels`, which replaces the generated labels as a whole (`Taxonomy.UserLabelsReplaceGenerated`), so this plugin never registers the defective label | `%s`, giving "New Priority Name" as the translators' comment says | high, not executed | Taxonomy.NewItemNameAsWritten | Taxonomy.NewItemName |
