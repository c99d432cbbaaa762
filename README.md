# flask-engarde variant machinery, modelled in Dafny

flask-engarde is a Flask storefront for fencing equipment. Products with variants
are made in the admin console in steps:

- name the product's options ("Size", "Hand");
- give each option a comma-separated list of values;
- fill in a table with one row per combination of values.

Each row becomes a `ProductVariant` with its own SKU, price, environmental impact
and stock, linked to its values through the `variant_combinations` join table.
This project models the admin views that drive these steps and the helpers they
use, and it proves what they leave in the tables.

Modules:

- `Text`: the Python string operations the views use (`strip`, `upper`, `title`,
  `split()`, `split(',')`, `join`, slicing), on the ASCII range.
- `Parsing`: the cleaning of submitted option names and value lists.
- `Sku`: `shorten_value`, `slugify_name`, `category_prefixes` and
  `generate_auto_sku`.
- `Combinations`: `itertools.product` over the value lists.
- `Schema`: the five tables as values. Rows are kept in id order, and a new row
  takes the next id after the largest one in use.
- `Variants`: what `add_product_variants` and `find_variant_by_combination`
  compute, as functions of the tables. The dictionary of existing variants is
  keyed by value sets (`ComboMap`); `SourceComboMap`, keyed by sorted tuples as
  in the code, is proved to hold the same variants, and both lookups are proved
  to be its `get`.
- `Forms`: the password rule, the price and impact rules, and the declared bounds
  of the variant, cart and payment forms.
- `Admin`: the views as functions, and the class `Store`. Its methods carry the
  views out loop by loop; each method is proved to end in the state its function
  describes.

The model follows the code wherever the code departs from the system's design:

- SKUs get no random suffix and no retry on collision. A second variant with a
  generated SKU already in use fails the unique constraint and aborts the
  request.
- The deletions of a save are committed before its rows are saved. A failed save
  therefore keeps them rather than rolling them back.
- An option with no values silently yields no combinations at all.
- The save looks the stored variants up by the value ids in option order. The
  page looks them up sorted. `Variants.UnsortedComboChurns` shows the result:
  when the ids are out of order, a variant is shown but deleted and re-created
  by every save. Saving the variant table twice is not idempotent.
- `find_variant_by_combination` accepts variants that carry extra values (see
  Findings).

## Model

| member | source | states |
|---|---|---|
| Text.Upper | website/admin.py:50 | `upper()` keeps the length; each character is upper-cased on its own |
| Text.Title | website/admin.py:46 | `title()` keeps the length |
| Text.TitleFromAt | website/admin.py:46 | a character of `title()` is lower-cased after a cased character and upper-cased otherwise |
| Text.TitleOfTitleCased | website/admin.py:46 | `title()` leaves an already title-cased string unchanged |
| Text.CapitalisedTitleCased | website/admin.py:46 | a capitalised word is title-cased |
| Text.SpacedTitleCased | website/admin.py:46 | two title-cased strings joined by a space are title-cased, since the space is uncased |
| Text.LowerOfTitle | website/admin.py:46 | lower-casing undoes what `title()` did to the case |
| Text.TitleIgnoresCase | website/admin.py:46 | two strings equal up to case have the same `title()` |
| Text.Take | website/admin.py:46 | `s[:n]` is the prefix of length min(n, len(s)) |
| Text.LeadingSpace | website/admin.py:129 | the leading whitespace run stops at a non-space or at the end |
| Text.LeadingSpaceAll | website/admin.py:129 | every character of the leading run is whitespace |
| Text.TrailingSpace | website/admin.py:129 | the trailing whitespace run stops at a non-space or at the start |
| Text.TrailingSpaceAll | website/admin.py:129 | every character of the trailing run is whitespace |
| Text.TrimStart | website/admin.py:129 | the result does not start with whitespace |
| Text.TrimEnd | website/admin.py:129 | the result does not end with whitespace |
| Text.Strip | website/admin.py:129 | `strip()` has no whitespace at either end |
| Text.StripIsSlice | website/admin.py:129 | `strip()` is the slice of the string between its leading and trailing whitespace runs |
| Text.StripEmpty | website/admin.py:129-130 | `strip()` is empty exactly when the string is all whitespace |
| Text.StripTrimmed | website/admin.py:129 | `strip()` leaves a trimmed string unchanged, so it is idempotent |
| Text.WordLength | website/admin.py:50 | a word of `split()` ends at whitespace or at the end of the string |
| Text.WordLengthAll | website/admin.py:50 | a word of `split()` has no whitespace |
| Text.WordClean | website/admin.py:50 | every word of `split()` is non-empty and has no whitespace |
| Text.WordsNonEmpty | website/admin.py:50-51 | no word of `split()` is empty |
| Text.WordChars | website/admin.py:50 | every character of a word is a character of the string |
| Text.WordsKeepText | website/admin.py:50 | the words of `split()` put together are the string without its whitespace, in order |
| Text.WordsEmpty | website/admin.py:50-51 | `split()` gives no word exactly when the string is blank |
| Text.Words | website/admin.py:50 | definition of `split()`; `Text.WordClean`, `Text.WordsKeepText` and `Text.WordsEmpty` state what it yields |
| Text.Split | website/admin.py:155 | `split(',')` gives at least one piece, and no piece contains the separator |
| Text.IndexOf | website/admin.py:155 | the first occurrence of the separator |
| Text.IndexOfAt | website/admin.py:155 | a position with the separator and none before it is the first occurrence |
| Text.JoinSplit | website/admin.py:155 | joining the pieces of `split(',')` with ',' gives back the string |
| Text.SplitJoin | website/admin.py:155 | splitting a join of separator-free pieces gives back the pieces |
| Text.Join | website/admin.py:87 | definition of `join`; `Text.JoinSplit` and `Text.SplitJoin` relate it to `split` |
| Parsing.KeepStripped | website/admin.py:155 | stripping and dropping blanks keeps no more entries than given; each kept one is non-empty and trimmed |
| Parsing.KeepStrippedAvoids | website/admin.py:155 | a character absent from every piece is absent from every kept entry |
| Parsing.KeepStrippedKeepsClean | website/admin.py:155 | entries already trimmed and non-empty are all kept, unchanged |
| Parsing.KeepStrippedSnoc | website/admin.py:127-132 | one more entry adds its stripped form exactly when that is not blank |
| Parsing.OptionNames | website/admin.py:127-132 | the option names stored are stripped, non-empty, and no more than the entries |
| Parsing.ParseValues | website/admin.py:155 | each parsed value is non-empty, trimmed and free of commas |
| Parsing.ParseJoin | website/admin.py:155 | clean values written out with commas parse back to themselves |
| Parsing.ParseIdempotent | website/admin.py:155 | parsing, re-joining and parsing again gives the same values |
| Parsing.ParseBlank | website/admin.py:154-155 | a field made only of commas and whitespace (including the missing field) yields no value |
| Parsing.PieceOfBlank | website/admin.py:155 | every piece of a split of commas and whitespace is whitespace |
| Parsing.KeepStrippedDropsBlank | website/admin.py:155 | pieces that all strip to nothing keep nothing |
| Sku.AbbreviationShape | website/admin.py:37-45 | every entry of the abbreviation table has one or two characters and no dash |
| Sku.Abbreviation | website/admin.py:37-45 | definition: the abbreviation table; `Sku.AbbreviationShape` and `Sku.AbbreviationKeysTitled` state its shape |
| Sku.ShortenValue | website/admin.py:36-46 | definition; `Sku.ShortenValueShape`, `Sku.ShortenValueHit` and `Sku.ShortenValueMiss` state what it returns |
| Sku.ShortenValueShape | website/admin.py:36-46 | `shorten_value` has at most three characters and adds no dash |
| Sku.AbbreviationKeys | website/admin.py:37-45 | the table has exactly the seven keys it lists |
| Sku.AbbreviationKeyTitleCased | website/admin.py:37-45 | each key is a capitalised word or two around a space, hence title-cased |
| Sku.AbbreviationKeysTitled | website/admin.py:37-46 | every key of the table is its own `title()`, so the title-cased lookup can reach it |
| Sku.ShortenValueHit | website/admin.py:46 | a value that equals a table key, trimmed and up to case, gets that key's entry |
| Sku.ShortenValueMiss | website/admin.py:46 | a value that matches no key gets its first three characters, untrimmed and upper-cased |
| Sku.ShortenValueTrimmedExample | website/admin.py:46 | " extra large " is shortened to "XL" |
| Sku.ShortenValueFallbackExample | website/admin.py:46 | "  blue" is shortened to "  B": the fallback keeps the leading whitespace |
| Sku.ShortenValueNotInjective | website/admin.py:38-42 | "Large" and "Left" are both shortened to "L" |
| Sku.NameWords | website/admin.py:50 | definition: `name.strip().upper().split()`; `Sku.SlugifyNameShape`, `Sku.SlugifyBlank` and `Sku.SlugifyChars` state what the slug takes from it |
| Sku.Initials | website/admin.py:51 | one initial per word |
| Sku.InitialsAt | website/admin.py:51 | initial k is the first character of word k |
| Sku.SlugifyNameShape | website/admin.py:49-51 | a one-word name gives the first one to three characters of its word; any other name gives exactly one initial per word |
| Sku.SlugifyName | website/admin.py:49-51 | definition; `Sku.SlugifyNameShape`, `Sku.SlugifyBlank` and `Sku.SlugifyChars` state what it returns |
| Sku.SlugifyBlank | website/admin.py:49-51 | the slug is empty exactly when the name is blank |
| Sku.UpperStripChars | website/admin.py:50 | every character of the stripped, upper-cased name is a character of the upper-cased name |
| Sku.UpperChars | website/admin.py:50 | `upper()` leaves no ASCII lower-case letter and creates no dash |
| Sku.SlugifyChars | website/admin.py:49-51 | every slug character is an upper-cased character of the name, never whitespace or lower-case; no dash unless the name has one |
| Sku.CategoryCode | website/admin.py:85 | the category code has three characters; an unknown category gives "GEN" |
| Sku.CategoryPrefixShape | website/admin.py:55-81 | every code of the category table is three upper-case letters |
| Sku.CategoryPrefix | website/admin.py:55-81 | definition: the category table; `Sku.CategoryPrefixShape` states its shape |
| Sku.CategoryCodeUpper | website/admin.py:85 | the category code, "GEN" included, is three upper-case letters |
| Sku.Shortened | website/admin.py:87 | one abbreviation per value, in combination order |
| Sku.GenerateAutoSkuShape | website/admin.py:84-89 | an SKU starts with the category code and a dash; with no values it ends in a dash |
| Sku.GenerateAutoSku | website/admin.py:84-89 | definition; `Sku.GenerateAutoSkuShape` and `Sku.SkuTokens` state what it builds |
| Sku.SkuTokens | website/admin.py:84-89 | splitting an SKU at '-' gives back the code, the slug and one abbreviation per value, when neither the name nor any value has a dash |
| Combinations.Expand | website/admin.py:182 | an expansion has one entry per pair of head and tail |
| Combinations.Cartesian | website/admin.py:182 | `product(*lists)` has as many combinations as the product of the list lengths (one for no lists) |
| Combinations.ExpandAt | website/admin.py:182 | position i*len(tails)+j holds head i in front of tail j, so the last list varies fastest |
| Combinations.CartesianAt | website/admin.py:182 | the combinations are in lexicographic order of the positions picked |
| Combinations.CartesianPicks | website/admin.py:182 | every combination picks one element from each list, in list order |
| Combinations.PicksInCartesian | website/admin.py:182 | every such pick is a combination |
| Combinations.CartesianEmpty | website/admin.py:182 | there is no combination exactly when some list is empty |
| Combinations.CartesianDistinct | website/admin.py:182 | lists without repetitions give combinations without repetitions |
| Schema.MaxIdBounds | website/models.py:41 | the largest id in use bounds every id and is one of them |
| Schema.NextIdAbove | website/admin.py:225-226 | the id a new row takes is larger than every id in use |
| Schema.NextIdOfIncreasing | website/admin.py:225-226 | in a table in id order, the next id follows the last row's id |
| Schema.Append | website/admin.py:131-132 | adding a row keeps the old rows, puts the new one last under the next id, and keeps id order |
| Schema.AppendAll | website/admin.py:156-157 | adding a batch of rows adds one row per datum |
| Schema.AppendAllNextId | website/admin.py:156-157 | after a batch of k rows the next id is k further on |
| Schema.AppendAllIncreasing | website/admin.py:156-157 | adding a batch keeps the table in id order |
| Schema.AppendAllSnoc | website/admin.py:156-157 | adding a batch one row at a time is adding the whole batch |
| Schema.Find | website/admin.py:122 | `get_or_404` finds the row with the id, and fails exactly when no row has it |
| Schema.FindUnique | website/models.py:41 | in a table in id order, looking up a row's id finds that row |
| Schema.FirstWhere | website/admin.py:28-31 | the first element that passes, and none exactly when none passes |
| Schema.OptionsOf | website/admin.py:146 | the options of a product are exactly the option rows that name it, in id order |
| Schema.ValuesOf | website/admin.py:178 | the values of an option are exactly the value rows that name it, in id order |
| Schema.VariantsOf | website/admin.py:186-187 | the variants of a product are exactly the variant rows that name it, in id order |
| Schema.LinkSet | website/admin.py:189 | definition: the value ids of a variant's join rows; `Schema.LinkSetWithout`, `Variants.ComboMap` and `Variants.LinkSetPlus` state how the operations change it |
| Schema.LinksWithout | website/admin.py:200-201 | definition: the join rows outside the deleted variants; `Schema.LinkSetWithout` states what the deletion leaves |
| Schema.LinkSetWithout | website/admin.py:200-201 | after the deletion a deleted variant has no values and every other keeps its own |
| Variants.ValueLists | website/admin.py:177-180 | definition: the value lists of the product's options in option order; `Variants.ComboValues` states what a combination drawn from them holds |
| Variants.Combos | website/admin.py:182 | definition; `Combinations.CartesianPicks`, `Combinations.PicksInCartesian` and `Variants.CombosDistinct` state what it holds |
| Variants.KeyOf | website/admin.py:193-194 | definition: the value ids of a combination in option order; `Variants.ComboKeyDistinct` and `Variants.CombosDetermined` state what it identifies |
| Variants.ValueTexts | website/admin.py:87 | one text per value of the combination |
| Variants.SortedUnique | website/admin.py:189 | a set of ids has only one sorted listing, so sorted keys and value sets correspond one to one |
| Variants.ComboMap | website/admin.py:188-191 | every variant's value set is a key; every key maps to a variant with exactly that set |
| Variants.ComboMapLast | website/admin.py:188-191 | the dictionary keeps the last variant of each value set |
| Variants.MapOf | website/admin.py:185-191 | definition: `ComboMap` of the product's variants; `Variants.SourceComboMapMatches` ties it to the dictionary |
| Variants.WithoutVariants | website/admin.py:197-204 | deleting variants removes exactly those variants and their join rows; the other tables stay |
| Variants.CurrentKeys | website/admin.py:193-194 | definition: the option-order keys of the combinations; `Variants.UnsortedComboChurns` shows what an unsorted key does |
| Variants.Listed | website/admin.py:199 | definition: a stored value set whose increasing listing is a current key; `Variants.DoomedExactly` and `Admin.GoneStep` state that exactly the unlisted sets are deleted |
| Variants.Doomed | website/admin.py:197-202 | definition: the variants of map entries whose set is no current key; `Variants.DoomedExactly` and `Variants.ShadowedDuplicateSurvives` state which they are |
| Variants.Cleared | website/admin.py:197-204 | definition; `Variants.DeletionKeeps` and `Variants.ClearedConsistent` state what it leaves |
| Variants.PostLookup | website/admin.py:210-211 | definition on the set-keyed map; `Variants.PostLookupIsGet` proves it is the dictionary lookup with the option-order key |
| Variants.GetLookup | website/admin.py:242-245 | definition on the set-keyed map; `Variants.GetLookupIsGet` proves it is the dictionary lookup with the sorted key |
| Variants.PostFindsLess | website/admin.py:210-245 | whatever the save finds, the page finds too; for a sorted key they agree |
| Variants.LookupsDisagree | website/admin.py:210-245 | for the key [5, 3] the page finds the variant of {3, 5}, and the save does not |
| Variants.SortedKeyElems | website/admin.py:189 | the sorted listing of a set of ids lists exactly that set |
| Variants.SortedKeyIncreasing | website/admin.py:189 | the sorted listing of a set of ids is strictly increasing |
| Variants.InsertSorted | website/admin.py:242 | inserting an id into a sorted sequence keeps it sorted |
| Variants.SortedTuple | website/admin.py:242 | `sorted` of a key keeps its ids with their repetitions, in non-decreasing order |
| Variants.DistinctMultiset | website/admin.py:242 | a key has no repeated id exactly when no id occurs twice in it |
| Variants.SortedTupleOf | website/admin.py:189-245 | sorting a key with distinct ids gives the sorted listing of its set; sorting a key with a repeat gives no increasing tuple |
| Variants.SourceComboMap | website/admin.py:188-191 | definition: the dictionary from the sorted tuple of each variant's value ids to the variant, later variants overwriting earlier ones |
| Variants.SourceComboMapMatches | website/admin.py:188-191 | a tuple is a key of the dictionary exactly when it is the increasing listing of a value set `ComboMap` holds, and both give the same variant |
| Variants.PostLookupIsGet | website/admin.py:210-211 | the save's lookup is the dictionary's `get` with the option-order key |
| Variants.GetLookupIsGet | website/admin.py:242-245 | the page's lookup is the dictionary's `get` with the sorted key |
| Variants.ComboMapLatest | website/admin.py:188-191 | of two variants with the same value set, the dictionary holds one that comes after the earlier |
| Variants.ShadowedDuplicateSurvives | website/admin.py:188-202 | the earlier of two variants of a product with the same value set is never deleted by the first loop, whether or not its set is current |
| Variants.SameIdSameRow | website/models.py:41 | rows of a table in id order that share an id are the same row |
| Variants.ComboValues | website/admin.py:177-182 | each value of a combination is stored and belongs to the option at its position |
| Variants.ComboKeyDistinct | website/admin.py:193-194 | the value ids of a combination are distinct |
| Variants.CombosDetermined | website/admin.py:182-194 | two combinations with the same value set are the same combination |
| Variants.UnsortedComboChurns | website/admin.py:193-245 | a stored variant whose combination has unsorted ids is deleted by every save and missed by its lookup, while the page finds it |
| Variants.DoomedExactly | website/admin.py:197-202 | when value sets are unique, a variant is deleted exactly when it is the product's and its sorted set is not a current key |
| Variants.DeletionKeeps | website/admin.py:193-204 | the variants of other products stay; a kept variant keeps its join rows and a deleted one keeps none |
| Variants.Reprice | website/admin.py:213-215 | repricing sets that variant's price and impact, keeps its SKU, stock and product, and leaves every other row as it was |
| Variants.LinksFor | website/admin.py:228-232 | a new variant gets exactly one join row per value of its combination |
| Variants.SetPrice | website/admin.py:213-215 | repricing touches only the variant table and keeps every id |
| Variants.AddVariant | website/admin.py:217-232 | a new variant goes last under the next id with the row's data, with one join row per value |
| Variants.Skus | website/models.py:80 | definition: the SKUs in use, the unique column; `Variants.SaveRowEffect` states that a row fails exactly when its generated SKU is among them |
| Variants.RowForm | website/admin.py:209 | definition: the submitted row with prefix `i`, every field empty when it is missing; `Variants.SaveRowsCover` states that every valid row so far is covered |
| Variants.NewSku | website/admin.py:217 | definition: `generate_auto_sku` of the product and the combination's value texts |
| Variants.SaveRow | website/admin.py:207-234 | definition; `Variants.SaveRowEffect`, `Variants.StepCovers` and `Variants.StepConsistent` state its effect |
| Variants.SaveRows | website/admin.py:207-236 | definition; `Variants.SaveRowsCover` states its effect |
| Variants.SaveRowEffect | website/admin.py:207-234 | an invalid row changes nothing; a found row is repriced; an unfound row is added as a new variant with the generated SKU, the next id, the row's figures and one join row per value, or fails exactly when that SKU is taken, reporting it; a saved row keeps every link and variant id |
| Variants.SaveVariants | website/admin.py:172-238 | a save of an unknown product is a 404 and changes nothing; otherwise it ends saved or on a taken SKU |
| Variants.LinkSetPlus | website/admin.py:228-232 | the join rows of a new variant change the value set of that variant only |
| Variants.ClearedConsistent | website/admin.py:197-204 | the deletions keep consistent tables consistent |
| Variants.SetPriceExtends | website/admin.py:213-215 | repricing keeps every earlier variant with its SKU, stock and values |
| Variants.AddVariantExtends | website/admin.py:217-232 | adding a variant keeps every earlier variant with its SKU, stock and values |
| Variants.SetPriceConsistent | website/admin.py:213-215 | repricing keeps the tables consistent |
| Variants.AddVariantConsistent | website/admin.py:217-232 | adding a variant of a stored product with stored values keeps the tables consistent |
| Variants.StepExtends | website/admin.py:207-234 | a saved row keeps every earlier variant with its SKU, stock and values |
| Variants.StepConsistent | website/admin.py:207-234 | a saved row keeps the tables consistent |
| Variants.HitSurvives | website/admin.py:197-215 | the variant the save's lookup finds survives the deletions with exactly the combination's values |
| Variants.CombosDistinct | website/admin.py:182 | no two combinations of a product are equal |
| Variants.FreshIdUnlinked | website/admin.py:225-226 | the id a new variant takes has no join rows yet |
| Variants.SetPriceCovers | website/admin.py:213-215 | a repriced kept variant carries the new price and impact |
| Variants.AddVariantCovers | website/admin.py:217-232 | a new variant has exactly the values of its combination and the row's price and impact |
| Variants.SetPriceKeeps | website/admin.py:213-215 | repricing another variant leaves a covered value set covered |
| Variants.SaveSetting | website/admin.py:182-204 | after the deletions the tables are consistent, the combinations are stored, distinct and pairwise of different sets, and every lookup hit is kept |
| Variants.StepCovers | website/admin.py:207-234 | after a valid row is saved, some variant of the product has exactly its values, price and impact |
| Variants.StepKeepsCovered | website/admin.py:207-234 | saving a row leaves a variant with other values covered |
| Variants.SaveRowsCover | website/admin.py:207-236 | after n rows the tables extend the committed ones, stay consistent and cover every valid row so far |
| Variants.CoverStep | website/admin.py:207-234 | one row of the loop keeps the three facts of the loop |
| Variants.StepKeepsRows | website/admin.py:207-234 | saving a row keeps the variants of the rows before it |
| Variants.SaveVariantsEffect | website/admin.py:172-238 | a save keeps the tables consistent; when it saves, every valid row's combination has a variant with exactly its values and the row's price and impact, and every kept variant stands with its SKU, stock and values; on a taken SKU the tables are those the deletions left |
| Variants.PrefillRow | website/admin.py:241-252 | a page row always has an SKU; it has the stored data exactly when the sorted lookup finds a variant, and otherwise the generated SKU with empty fields |
| Variants.ShowVariants | website/admin.py:172-256 | a GET of an unknown product is a 404; otherwise one row per combination |
| Variants.PrefillRows | website/admin.py:241-254 | one page row per combination |
| Variants.PrefillRowsSnoc | website/admin.py:241-254 | one more combination adds its prefilled row at the end |
| Variants.PrefillRowsAt | website/admin.py:241-254 | page row k is the prefill of combination k |
| Variants.ShowVariantsRow | website/admin.py:241-254 | when value sets are unique, row i shows the variant with exactly combination i's values, or the generated SKU with empty fields when none has them |
| Variants.ResubmitFoundRow | website/admin.py:207-254 | sending a page row back unchanged for a sorted key leaves the tables as they were |
| Variants.FindVariantByCombination | website/admin.py:15-31 | the query's result is a variant of the product holding as many of the combination's values as it has entries, and in a table in id order no variant with a smaller id qualifies; none exactly when none qualifies or the combination is empty |
| Variants.Matches | website/admin.py:24-27 | definition: the number of a variant's join rows among the combination's values, the HAVING count; `Variants.FindVariantCovers` states when it equals the combination's length |
| Variants.FindVariantCovers | website/admin.py:21-29 | for a combination of the product, the query's count matches exactly when the variant has all of the combination's values |
| Variants.FindExactVariant | website/admin.py:15-31 | the result is a variant of the product whose values are exactly those of the combination, and in a table in id order no variant with a smaller id has them; none exactly when none has them or the combination is empty |
| Variants.FirstInIdOrder | website/admin.py:28-31 | in a table in id order the first row that passes a test has the least id among those that pass |
| Variants.FindExactIsMatch | website/admin.py:15-31 | whenever the exact lookup finds a variant, the query finds one too; in a table in id order both return the same variant when the query's hit has exactly the combination's values |
| Variants.FindVariantAcceptsExtraValues | website/admin.py:15-31 | a variant stored as (Small, Left) is found for the combination (Small), though no variant has exactly that value |
| Forms.StrongPassword | website/forms.py:8-23 | a password is accepted exactly when all five checks pass; otherwise the first failing check is reported and every earlier one passes |
| Forms.ShortPasswordReportsLength | website/forms.py:11-12 | a password shorter than eight characters gets the length message, whatever else it lacks |
| Forms.StrongPasswordByChecks | website/forms.py:8-23 | passwords that pass the same checks get the same verdict |
| Forms.StrongPasswordAccepts | website/forms.py:8-23 | "Abcdef1!" is accepted |
| Forms.StrongPasswordNoUpper | website/forms.py:13-15 | "abcdef1!" gets the upper-case error |
| Forms.StrongPasswordNoDigit | website/forms.py:19-20 | "Abcdefg!" gets the digit error, before the special-character check |
| Forms.ValidatePrice | website/forms.py:65-68 | definition; `Forms.VariantParentNeedsNoPrice`, `Forms.StandaloneNeedsFigures` and `Forms.ProductFormRule` state the rule |
| Forms.ValidateImpact | website/forms.py:70-73 | definition; `Forms.VariantParentNeedsNoPrice`, `Forms.StandaloneNeedsFigures` and `Forms.ProductFormRule` state the rule |
| Forms.VariantParentNeedsNoPrice | website/forms.py:65-73 | for a product with variants neither rule can fail |
| Forms.StandaloneNeedsFigures | website/forms.py:65-73 | for a product without variants each field fails exactly when it is empty, each with its own message |
| Forms.ProductFormRule | website/forms.py:65-73 | the two rules pass exactly when the product has variants or both price and impact are given |
| Forms.VariantRowValid | website/forms.py:104-114 | a row is valid exactly when every field is present, the SKU has at most 50 characters and the stock is not negative |
| Forms.CartQuantityValid | website/forms.py:117-123 | a cart quantity is valid exactly when it is present and at least 1 |
| Forms.PaymentValid | website/forms.py:145-149 | a payment is valid exactly when the card number has 16 characters, an expiry is given and the CVV has 3 or 4 characters |
| Admin.OptionRows | website/admin.py:131 | definition: one option row per name; `Admin.AddOptionsStored` states what the view stores |
| Admin.AddOptions | website/admin.py:121-141 | an unknown product is a 404; an unvalidated form changes nothing; a valid one adds one option per non-blank entry and touches no other table |
| Admin.AddedOptionsOwned | website/admin.py:131 | every option added belongs to the product |
| Admin.AddOptionsStored | website/admin.py:127-133 | the product's options become its old ones followed by the new names in form order under fresh ids; other products' options do not change |
| Admin.AddOptionsConsistent | website/admin.py:121-141 | adding options keeps the tables consistent |
| Admin.Field | website/admin.py:154 | definition: the submitted field of an option, `""` when it is missing; `Admin.NewValueRowsHas` and `Parsing.ParseBlank` state what it yields |
| Admin.OptionValueRows | website/admin.py:154-157 | definition: one option's new value rows; `Admin.OptionValueRowsHas` states them |
| Admin.NewValueRows | website/admin.py:153-157 | definition: the new value rows of all options in turn; `Admin.NewValueRowsHas` states them |
| Admin.NewValueRowsHas | website/admin.py:153-157 | the new values are exactly the parsed pieces of each option's field, each under its option |
| Admin.OptionValueRowsHas | website/admin.py:154-157 | one option's new values are the parsed pieces of its own field |
| Admin.AddValues | website/admin.py:144-163 | a 404 for an unknown product; a redirect without options; the form on GET; on POST values are added and no other table changes |
| Admin.AddValuesStored | website/admin.py:153-158 | after a POST an option has a value with a text exactly when it had one before or the text is a piece of its field |
| Admin.AddValuesConsistent | website/admin.py:144-163 | adding values keeps the tables consistent |
| Admin.RemoveProduct | website/admin.py:259-279 | deleting an unknown product is a 404 and changes nothing |
| Admin.RemoveProductClears | website/admin.py:263-277 | after a deletion nothing of the product is left, and every row of other products and options is still there |
| Admin.RemoveProductConsistent | website/admin.py:259-279 | a deletion keeps consistent tables consistent when no other product's variant uses the deleted values |
| Admin.RemoveProductReferences | website/admin.py:259-279 | after a deletion every remaining option, value and variant still names a row that is left, and so does every join row when no other product's variant uses the deleted values (`NoForeignLinks`) |
| Admin.RemovedOwnersResolve | website/admin.py:268-277 | the options and variants left belong to products that are left |
| Admin.RemovedValuesResolve | website/admin.py:270-275 | the values left belong to options that are left |
| Admin.RemovedLinksResolve | website/admin.py:264-268 | the join rows left name a variant and a value that are left, when no other product's variant uses the deleted values |
| Admin.SaveRowsClashStays | website/admin.py:207-236 | once a row fails, the rest of the loop does not run |
| Admin.SaveRowsNext | website/admin.py:207-236 | the loop over the rows takes one row at a time |
| Admin.OptionsStep | website/admin.py:127-132 | one more entry adds its stripped name when it is not blank |
| Admin.CollectOptions | website/admin.py:127-132 | the loop adds one option per non-blank entry, as `AddOptions` describes |
| Admin.CollectValues | website/admin.py:153-157 | the loops add the parsed values of every option, as `AddValues` describes |
| Admin.AddEach | website/admin.py:156-157 | adding each datum in turn is adding the batch |
| Admin.RemoveStale | website/admin.py:197-202 | the deletion loop removes exactly the doomed variants and their join rows |
| Admin.GoneStep | website/admin.py:197-202 | visiting one more stored value set adds its variant to the deleted ids exactly when its set is not a current key |
| Admin.LinkValues | website/admin.py:228-232 | the loop adds exactly one join row per value |
| Admin.SaveRowAt | website/admin.py:208-234 | one row of the save ends as `SaveRow` describes |
| Admin.SaveAll | website/admin.py:207-236 | the loop over the rows ends as `SaveRows` describes |
| Admin.UnlinkVariants | website/admin.py:264-266 | the loop removes exactly the join rows of the product's variants |
| Admin.DropValues | website/admin.py:270-272 | the loop removes exactly the values of the product's options |
| Admin.Prefill | website/admin.py:241-254 | the GET loop builds the page rows `PrefillRows` describes |
| Admin.LinksForSnoc | website/admin.py:228-232 | one more value adds one more join row |
| Admin.Store.constructor | website/admin.py:4 | the store starts with the given tables |
| Admin.Store.Load | website/admin.py:204 | a commit or a rollback sets the tables |
| Admin.Store.AddVariantOptions | website/admin.py:121-141 | the view leaves the tables and returns the outcome `AddOptions` describes |
| Admin.Store.AddVariantValues | website/admin.py:144-163 | the view leaves the tables and returns the outcome `AddValues` describes |
| Admin.Store.AddProductVariants | website/admin.py:172-256 | a POST ends as `SaveVariants` describes; a GET changes nothing and returns the rows `ShowVariants` describes |
| Admin.Store.DeleteProduct | website/admin.py:259-279 | the view leaves the tables and returns the outcome `RemoveProduct` describes |

## Left out

- HTTP, templates, `flash`, redirects, `print` and the CSRF layer are left out. A view's result is the `Outcome` datatype.
- Whether a form "validates on submit" is a parameter of `AddVariantOptions`. The WTForms machinery behind it is not modelled.
- `new_product`, `list_products`, image upload and `secure_filename` are outside the variant machinery and not modelled.
- The request's `option-{id}-values` fields are a map from option id to text. The string formatting of the field names is not modelled.
- `DataRequired` is modelled as "the field is present". Python's falsiness check, which also rejects a price or stock of 0, is not modelled, and neither is its rejection of a string made only of whitespace (an SKU, card number, expiry or CVV of spaces counts as present here).
- Forms.ValidatePrice and Forms.ValidateImpact are modelled on their own, not in their place in WTForms' validator chain. There the field's `Optional()` validator runs first and ends the chain on an empty field, so the inline rule may only see a value that failed to parse; the chain is not modelled.
- Text: case mapping and whitespace are ASCII only; Python's full Unicode tables are not modelled.
- Forms.StrongPassword: the digit check accepts only `0`-`9`. Python's `\d` on a `str` matches every Unicode decimal digit, so a password whose only digit is, for example, the Arabic-Indic digit three passes the source's check but gets `NoDigit` here. The letter classes `[A-Z]` and `[a-z]` are ASCII in both.
- Sku.CategoryCode: a product without a category, where the source raises `AttributeError`, is not modelled. The product row carries its category name.
- Prices and impacts are `real` and are only copied. Floating-point rounding is not modelled.
- The nullable impact column is not modelled; a stored impact is always present.
- The order of rows in query results is the table's id order. SQL gives no such guarantee without `ORDER BY`.
- The ORM cascades (`cascade="all, delete"`) are not modelled; `delete_product`'s bulk deletes bypass them.
- Variants.SaveRow: the unique-SKU check runs before the insert, and only against the variant table. The database raises at `flush`, which the model does not separate.
- Admin.RemoveProductConsistent: it needs `NoForeignLinks`, because the code does not delete the join rows of other products' variants that use a deleted value.
- Variants.SaveVariantsEffect: it does not prove that a save keeps the value sets of the product's variants unique (`UniqueCombos`).
- Variants.ShowVariantsRow: it assumes that no two variants of the product share a value set (`UniqueCombos`). Without that, only the last variant of a set is in the dictionary.
- Variants.DoomedExactly: it assumes unique value sets too. Without them an earlier variant with a shared set is never deleted, as `Variants.ShadowedDuplicateSurvives` shows.
- Variants.DeletionKeeps: it assumes unique value sets too. Without them the earlier variant of a shared set survives the deletions even when its set is no current key (`Variants.ShadowedDuplicateSurvives`). Whether the views can ever store two variants with one value set is not proved.
- The rest of `forms.py` (sign-up, login, shipping, the regular expressions for names, e-mail syntax) is not modelled. The password rule applies only to the password field.

## Findings

| source | as written | input that shows it | evidently intended | confidence | as-written member | corrected member |
|---|---|---|---|---|---|---|
| website/admin.py:15-31 | the query counts how many of the combination's values a variant has and accepts a count equal to the combination's length, so a variant with extra values also matches | a variant linked to values 3 (Small) and 5 (Left), looked up with the combination [Small], is found | the comment promises variants with exactly the values in the combination | not executed | Variants.FindVariantAcceptsExtraValues | Variants.FindExactVariant |
