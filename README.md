# Obfuscated loader in wp-includes: a Dafny model

This WordPress tree carries two injected loader routines:

- `applyfilter` in `wp-includes/post-template.php`, registered with `add_action` for `get_sidebar` and `get_footer` and called directly from `the_content()`;
- `add_cached_taxonomy` in `wp-includes/js/class-https.php`.

Both build a decoder closure with `create_function`. The closure percent-decodes its input and then runs a keyed substitution over a 190-character table:

- the first half of the table is the 95 printable ASCII characters;
- the second half is a scrambled arrangement of the same 95;
- byte `i` of the input is found in the second half;
- it is moved back by `|key + i| mod 95` places, with one correction by 95;
- it is replaced by the first-half entry at that place.

Both files define a function `O01100llO` under the same `function_exists` guard. That function returns the decoded text, which is then run. Whichever file reaches the guard first decides what runs, and nothing runs twice in one process.

The class-https.php closure first compares the MD5 of the posted `sid` with a fixed digest. On a mismatch it returns a fixed "403 Forbidden" script instead of decoding. When the digest matches, it decodes with key `crc32(sid) + 12541`. The post-template.php closure decodes with key 3866.

The same two files hold some ordinary WordPress code, also modelled here:

- the numbered branch of `wp_link_pages`;
- `get_available_hierarchy_languages`;
- `get_hierarchy_locale`.

The decoded payloads are never computed here. The embedded cipher texts are parameters (`LoaderGuard.Payloads`). The code that runs them is an abstract sink, `eval: string -> string`, which maps a text to the output it prints.

## Layout

| file | module | contents |
|---|---|---|
| wrappers.dfy | `Wrappers` | `Option` |
| php.dfy | `Php` | PHP built-ins with PHP's results: `strpos`, `substr`, `abs(fmod())`, truthiness, `str_replace`, `(string)$n`, `basename` |
| url_codec.dfy | `UrlCodec` | `urldecode`, and the percent-escaping it inverts |
| alphabet.dfy | `Alphabet` | the table `$S`, entry by entry, and the facts about its two halves |
| substitution.dfy | `Substitution` | the decoder closure (a loop method), the function that specifies it, its laws, and its inverse |
| https_decoder.dfy | `HttpsDecoder` | the class-https.php closure: the MD5 gate and the key `crc32 + $key` |
| loader_guard.dfy | `LoaderGuard` | the define-once guard, output buffering in `applyfilter`, `the_content`, `add_cached_taxonomy`, as a state machine and as a class `Process` updated in place |
| link_pages.dfy | `LinkPages` | the numbered-links loop of `wp_link_pages` |
| languages.dfy | `Languages` | the language-file loop |
| locale.dfy | `Locale` | the locale fallback |

Notes on behaviour the model makes explicit:

- **Bytes outside the table.** A byte that is not printable ASCII is not found by `strpos($S, $c, 95)`. The resulting `false` counts as 0, so the index is minus the shift, and `substr` with a negative start counts from the end of the table. The output is still printable (`Substitution.EmitFallback`).
- **Falsy content.** `applyfilter` returns nothing for a falsy `$text`. `the_content` therefore drops a content of `""` or `"0"` and echoes the empty string; the loader's output still reaches the page, printed unescaped by the sink itself before that echo (`LoaderGuard.ContentShown`).
- **`glob` failure.** When `glob` fails, `(array)false` is a one-element array. `basename` reads that element as `""`, so the list holds one empty code (`Languages.GlobFailure`).

## Model

All paths are under `public_html/Wordpress/wp-includes/`.

| member | source | states |
|---|---|---|
| Substitution.DecodeClosure | public_html/Wordpress/wp-includes/post-template.php:667 | The closure percent-decodes its input and runs the loop; its result is `Decode(s, k)` |
| Substitution.SubstituteLoop | public_html/Wordpress/wp-includes/post-template.php:667 | The `for` loop appends, for each byte in order, the table entry the lookup selects; the result is the specification `Substitute` (the invariant holds at every iteration) |
| Substitution.SubstituteStep | public_html/Wordpress/wp-includes/post-template.php:667 | One more input byte extends the output by exactly `substr($S, idx, 1)` for that byte |
| Substitution.Substitute | public_html/Wordpress/wp-includes/post-template.php:667 | One output character per percent-decoded input byte, so empty input gives empty output; the loop has no rejection path |
| Substitution.Shift | public_html/Wordpress/wp-includes/post-template.php:667 | `abs(fmod($k+$i, 95))` is in [0, 95) |
| Substitution.ShiftIsRemainder | public_html/Wordpress/wp-includes/post-template.php:667 | The shift equals `|key + i| mod 95` |
| Substitution.ShiftSum | public_html/Wordpress/wp-includes/post-template.php:667 | The shift depends only on `key + i` |
| Substitution.ShiftPeriodic | public_html/Wordpress/wp-includes/post-template.php:667 | For non-negative key and position the shift has period 95 in the key |
| Substitution.Back | public_html/Wordpress/wp-includes/post-template.php:667 | Moving an index in [0, 95) back by a shift in [0, 95), with one `+95` if negative, lands in [0, 95) |
| Substitution.BackForward | public_html/Wordpress/wp-includes/post-template.php:667 | That single correction computes `(j - sh) mod 95`, and moving forward undoes it in both orders |
| Substitution.TableIndex | public_html/Wordpress/wp-includes/post-template.php:667 | A byte found in the second half gives an index in [0, 95) equal to its place there moved back by the shift; a byte not found gives minus the shift |
| Substitution.Emit | public_html/Wordpress/wp-includes/post-template.php:667 | `substr($S, $idx, 1)` yields exactly one character for every index the loop can compute |
| Substitution.SubstituteAt | public_html/Wordpress/wp-includes/post-template.php:667 | Output character `i` is what input byte `i` yields under the shift of position `i` |
| Substitution.SubstituteSnoc | public_html/Wordpress/wp-includes/post-template.php:667 | Appending a byte appends what it yields at its position |
| Substitution.SubstituteAppend | public_html/Wordpress/wp-includes/post-template.php:667 | For the loop over already percent-decoded bytes, `Substitute(t, a ++ b, k) == Substitute(t, a, k) ++ Substitute(t, b, k + |a|)` for any key |
| Substitution.SubstitutePeriodic | public_html/Wordpress/wp-includes/post-template.php:667 | For a non-negative key, `Substitute(t, s, k + 95) == Substitute(t, s, k)` |
| Substitution.ShiftRemainder | public_html/Wordpress/wp-includes/post-template.php:667 | For a non-negative key the shift only depends on the key modulo 95 |
| Substitution.SubstituteKeyRemainder | public_html/Wordpress/wp-includes/post-template.php:667 | For a non-negative key, the loop's output depends only on the key modulo 95 |
| Substitution.DecodeKeyRemainder | public_html/Wordpress/wp-includes/post-template.php:667 | The same for the whole closure |
| Substitution.DecodeAt | public_html/Wordpress/wp-includes/post-template.php:667 | The closure's output has the decoded input's length, and position `i` is byte `i` under shift `|key + i| mod 95` |
| Substitution.EmitFound | public_html/Wordpress/wp-includes/post-template.php:667 | A printable byte is replaced by the first-half entry at its second-half place moved back by the shift |
| Substitution.EmitFallback | public_html/Wordpress/wp-includes/post-template.php:667 | A non-printable byte (not found by `strpos`) yields the first entry for shift 0, otherwise the entry `shift` places before the end of the table |
| Substitution.EmitPrintable | public_html/Wordpress/wp-includes/post-template.php:667 | Every emitted character is printable ASCII, whatever the byte |
| Substitution.DecodePrintable | public_html/Wordpress/wp-includes/post-template.php:667 | Every character the closure returns is printable ASCII |
| Substitution.EmitInjective | public_html/Wordpress/wp-includes/post-template.php:667 | Under one shift, distinct printable bytes yield distinct characters, because the second half repeats no character |
| Substitution.SubstituteInjective | public_html/Wordpress/wp-includes/post-template.php:667 | At a fixed key, distinct printable inputs of one length decode differently |
| Substitution.EncodeChar | public_html/Wordpress/wp-includes/post-template.php:667 | The inverse of one lookup yields a printable byte |
| Substitution.Encode | public_html/Wordpress/wp-includes/post-template.php:667 | The encoder keeps the length and is printable, position by position the inverse lookup |
| Substitution.EmitEncodeChar | public_html/Wordpress/wp-includes/post-template.php:667 | Looking up the encoding of a printable character gives the character back |
| Substitution.EncodeCharEmit | public_html/Wordpress/wp-includes/post-template.php:667 | Encoding the lookup of a printable byte gives the byte back |
| Substitution.DecodeEncode | public_html/Wordpress/wp-includes/post-template.php:667 | `decode(encode(p, k), k) == p` for printable `p` |
| Substitution.EncodeDecode | public_html/Wordpress/wp-includes/post-template.php:667 | `encode(decode(s, k), k) == s` for printable `s`: a bijection at each key |
| Substitution.DecodeEscapedEncoding | public_html/Wordpress/wp-includes/post-template.php:667 | The closure run on the percent-escaped encoding of printable text gives the text back |
| Alphabet.Table | public_html/Wordpress/wp-includes/post-template.php:667 | The table literal `$S` has 190 characters |
| Alphabet.EntryFacts | public_html/Wordpress/wp-includes/post-template.php:667 | Each entry of either half is printable and found again at its place by that half's index |
| Alphabet.HalvesDistinct | public_html/Wordpress/wp-includes/post-template.php:667 | Neither half repeats a character |
| Alphabet.HalvesCover | public_html/Wordpress/wp-includes/post-template.php:667 | Each half holds every printable ASCII character: the second half is a permutation of the first |
| Alphabet.TableSymbols | public_html/Wordpress/wp-includes/post-template.php:667 | A character occurs in either half exactly when it is printable ASCII |
| Alphabet.ScrambledLookup | public_html/Wordpress/wp-includes/post-template.php:667 | A printable character sits at exactly one place of the second half; others are absent |
| Alphabet.FindInScrambled | public_html/Wordpress/wp-includes/post-template.php:667 | `strpos($S, $c, 95)` finds a printable byte at `95 + its place` and returns `false` for any other |
| Alphabet.TablePrintable | public_html/Wordpress/wp-includes/post-template.php:667 | Every table entry is printable ASCII |
| UrlCodec.UrlDecode | public_html/Wordpress/wp-includes/post-template.php:667 | `urldecode` never lengthens its input |
| UrlCodec.UrlDecodeEscapeByte | public_html/Wordpress/wp-includes/post-template.php:667 | One `%xx` escape decodes to its byte |
| UrlCodec.UrlDecodeEscape | public_html/Wordpress/wp-includes/post-template.php:667 | An escaped prefix decodes to its bytes, and decoding carries on with the rest |
| UrlCodec.UrlDecodeEscapeAll | public_html/Wordpress/wp-includes/post-template.php:667 | `urldecode` inverts full percent-escaping |
| UrlCodec.UrlDecodePlain | public_html/Wordpress/wp-includes/post-template.php:667 | Text without `%` or `+` passes through unchanged |
| Php.StrPos | public_html/Wordpress/wp-includes/post-template.php:667 | A found position is at or after the offset and holds the needle |
| Php.StrPosFirst | public_html/Wordpress/wp-includes/post-template.php:667 | `strpos` finds the first occurrence, and returns `false` exactly when there is none |
| Php.Substr1 | public_html/Wordpress/wp-includes/post-template.php:667 | `substr($s, $start, 1)`: in-range start, negative start counted from the end, start past the end gives "" |
| Php.FMod | public_html/Wordpress/wp-includes/post-template.php:667 | `fmod` on integers takes the sign of the dividend and is smaller than the divisor in size |
| Php.FModRemainder | public_html/Wordpress/wp-includes/post-template.php:667 | `abs(fmod(x, m)) == |x| mod m` |
| HttpsDecoder.TranslDictionary | public_html/Wordpress/wp-includes/js/class-https.php:124 | A failed MD5 gate returns the fixed 403 script; a passed gate returns the post-template loop over the table with key `crc32(sid) + $key` |
| HttpsDecoder.GateRejects | public_html/Wordpress/wp-includes/js/class-https.php:124 | On a failed gate the reply is the same for every input and key, and nothing is decoded |
| HttpsDecoder.GatePasses | public_html/Wordpress/wp-includes/js/class-https.php:124 | On a passed gate the closure equals the post-template closure with the effective key |
| HttpsDecoder.GatePrintable | public_html/Wordpress/wp-includes/js/class-https.php:124 | On a passed gate the reply has one printable character per decoded input byte |
| HttpsDecoder.GateShift | public_html/Wordpress/wp-includes/js/class-https.php:124 | On a passed gate position `i` uses shift `|crc32(sid) + key + i| mod 95` |
| HttpsDecoder.CrcRemainder | public_html/Wordpress/wp-includes/js/class-https.php:124 | With a non-negative key, posted values whose CRC-32 agree modulo 95 decode every input alike |
| LoaderGuard.Echo | public_html/Wordpress/wp-includes/post-template.php:666-668 | Output goes to the innermost open buffer, or to the client when none is open; nothing else changes |
| LoaderGuard.Guard | public_html/Wordpress/wp-includes/post-template.php:667 | A defined guard changes nothing; an open one defines `O01100llO` for this file and hands its text to the sink once |
| LoaderGuard.StepGuard | public_html/Wordpress/wp-includes/js/class-https.php:125-128 | Each entry point passes the guard once, rebuilds its own closure, and never undoes a definition |
| LoaderGuard.FilterConsistent | public_html/Wordpress/wp-includes/post-template.php:664-669 | `applyfilter` keeps "the sink ran once exactly when defined" |
| LoaderGuard.StepConsistent | public_html/Wordpress/wp-includes/js/class-https.php:122-129 | Every entry point keeps that invariant |
| LoaderGuard.RunConsistent | public_html/Wordpress/wp-includes/js/class-https.php:125-128 | Any sequence of calls keeps that invariant |
| LoaderGuard.SinkAtMostOnce | public_html/Wordpress/wp-includes/js/class-https.php:125-128 | Across both files the decoded text runs at most once per process |
| LoaderGuard.GuardStaysClosed | public_html/Wordpress/wp-includes/post-template.php:667 | After the first definition, no later call changes the defining file or runs the sink again |
| LoaderGuard.FirstCallerWins | public_html/Wordpress/wp-includes/js/class-https.php:125-128 | The first call to reach the guard decides which file's text runs, and that is the only text run |
| LoaderGuard.ForbiddenFirst | public_html/Wordpress/wp-includes/js/class-https.php:124-128 | If `add_cached_taxonomy` comes first with a failing MD5, the sink runs the 403 script and the post-template payload never runs |
| LoaderGuard.ClosuresRebuilt | public_html/Wordpress/wp-includes/post-template.php:667 | Each call rebuilds its file's closure global, whether or not the guard is open |
| LoaderGuard.FilterTruthy | public_html/Wordpress/wp-includes/post-template.php:666-668 | A truthy `$text` opens a buffer, and `$text` followed by what the sink printed is returned; enclosing buffers and client output are untouched |
| LoaderGuard.FilterFalsy | public_html/Wordpress/wp-includes/post-template.php:666-671 | A falsy `$text` (the hooks pass none) opens no buffer and returns nothing; the sink's output goes through |
| LoaderGuard.ContentShown | public_html/Wordpress/wp-includes/post-template.php:170 | When no output buffer is open, `the_content` echoes the content followed by the captured output, escaped; content "" or "0" is dropped |
| LoaderGuard.EscapeHead | public_html/Wordpress/wp-includes/post-template.php:170 | The escaping keeps the first character and does not create a `>` in second place |
| LoaderGuard.EscapedHasNoCdataEnd | public_html/Wordpress/wp-includes/post-template.php:170 | After `str_replace(']]>', ']]&gt;', ...)` no `]]>` is left anywhere |
| LoaderGuard.Process.constructor | public_html/Wordpress/wp-includes/post-template.php:664-669 | A fresh process: nothing defined, buffered, run or sent |
| LoaderGuard.Process.Write | public_html/Wordpress/wp-includes/post-template.php:666-668 | PHP output updates the process as `Echo` describes |
| LoaderGuard.Process.RunOnce | public_html/Wordpress/wp-includes/post-template.php:667 | The guarded block updates the process as `Guard` describes |
| LoaderGuard.Process.PostTemplateGuard | public_html/Wordpress/wp-includes/post-template.php:667 | The guarded block decodes the post-template payload only when it defines the function |
| LoaderGuard.Process.ApplyFilter | public_html/Wordpress/wp-includes/post-template.php:664-669 | `applyfilter` updates the process and returns as `ApplyFilterEffect` says, keeping the guard invariant |
| LoaderGuard.Process.TheContent | public_html/Wordpress/wp-includes/post-template.php:167-171 | `the_content` updates the process as `TheContentEffect` says, keeping the guard invariant |
| LoaderGuard.Process.HttpsGuard | public_html/Wordpress/wp-includes/js/class-https.php:125-128 | The guarded block calls `$transl_dictionary` only when it defines the function |
| LoaderGuard.Process.AddCachedTaxonomy | public_html/Wordpress/wp-includes/js/class-https.php:122-129 | `add_cached_taxonomy` rebuilds the closure and passes the guard, keeping the guard invariant |
| LinkPages.NumberedLoop | public_html/Wordpress/wp-includes/post-template.php:583-608 | The loop's output is `$before`, then for `i` in 1..numpages the item with `%` replaced by `i`, then `$after`; it opens exactly as many anchors as it closes, one per linked page |
| LinkPages.Iteration | public_html/Wordpress/wp-includes/post-template.php:587-606 | One iteration appends a space, the anchor, `$link_before`, the label, `$link_after` and the closing anchor; it opens an anchor exactly when it closes one |
| LinkPages.LinkedCountClosedForm | public_html/Wordpress/wp-includes/post-template.php:589 | Every page but the current one is linked, except on the first page's teaser view, where all are |
| LinkPages.LabelReplaced | public_html/Wordpress/wp-includes/post-template.php:587 | A label keeps no `%` |
| LinkPages.DefaultLabel | public_html/Wordpress/wp-includes/post-template.php:572 | With the default `pagelink` the label is the decimal page number, which reads back as `i` |
| LinkPages.LabelSplits | public_html/Wordpress/wp-includes/post-template.php:587 | Each `%` of the pagelink is replaced independently of the text around it |
| LinkPages.SinglePage | public_html/Wordpress/wp-includes/post-template.php:583 | Outside a multi-page post the output is empty |
| Php.StrReplaceRemoves | public_html/Wordpress/wp-includes/post-template.php:587 | Replacing a character by text without it leaves none behind |
| Php.StrReplaceChar | public_html/Wordpress/wp-includes/post-template.php:587 | One-character `str_replace` distributes over concatenation |
| Php.StrReplaceAbsent | public_html/Wordpress/wp-includes/post-template.php:170 | A subject without the search string is returned unchanged |
| Php.Decimal | public_html/Wordpress/wp-includes/post-template.php:587 | `(string)$i` is non-empty, all digits, without a leading zero for positive numbers |
| Php.DecimalValue | public_html/Wordpress/wp-includes/post-template.php:587 | The decimal text of a number reads back as the number |
| Languages.AvailableLanguages | public_html/Wordpress/wp-includes/js/class-https.php:202-211 | The loop returns `Languages` of the glob entries |
| Languages.LanguagesStep | public_html/Wordpress/wp-includes/js/class-https.php:205-209 | One more file extends the list by its code when that passes the filter |
| Languages.LanguagesSound | public_html/Wordpress/wp-includes/js/class-https.php:206-208 | Every listed code passes the filter and is some file's basename without `.mo` |
| Languages.LanguagesComplete | public_html/Wordpress/wp-includes/js/class-https.php:206-208 | Every file whose code passes the filter contributes it |
| Languages.LanguagesMembers | public_html/Wordpress/wp-includes/js/class-https.php:205-210 | A code is listed exactly when it comes from a file and starts with neither `continents-cities` nor `ms-` |
| Languages.LanguagesAppend | public_html/Wordpress/wp-includes/js/class-https.php:205-210 | The input order is kept: the list of `a ++ b` is the list of `a` followed by that of `b` |
| Languages.LanguagesLength | public_html/Wordpress/wp-includes/js/class-https.php:205-210 | At most one code per file |
| Languages.LanguageFile | public_html/Wordpress/wp-includes/js/class-https.php:206 | `dir/code.mo` gives `code`, unless the filter drops it |
| Languages.GlobFailure | public_html/Wordpress/wp-includes/js/class-https.php:205 | When `glob` fails the list holds one empty code |
| Php.BasenameOfFile | public_html/Wordpress/wp-includes/js/class-https.php:206 | `basename('dir/code.mo', '.mo')` is `code` |
| Php.ComponentAfterSlash | public_html/Wordpress/wp-includes/js/class-https.php:206 | The text after the last slash is the last component |
| Php.TrimTrailingSlashesShape | public_html/Wordpress/wp-includes/js/class-https.php:206 | Trimming keeps a prefix not ending in a slash and removes only slashes |
| Php.LastComponentShape | public_html/Wordpress/wp-includes/js/class-https.php:206 | The last component is a slash-free suffix, preceded by a slash unless it is the whole text |
| Locale.GetHierarchyLocale | public_html/Wordpress/wp-includes/js/class-https.php:150-174 | The result is the filtered global; a set global is kept as it is; otherwise the global becomes a non-empty locale |
| Locale.LookupOnce | public_html/Wordpress/wp-includes/js/class-https.php:153-154 | A second call, finding the global set, returns the same and changes nothing |
| Locale.OptionDecides | public_html/Wordpress/wp-includes/js/class-https.php:161-167 | On multisite outside installation, an option that is not `false` decides, with `en_US` for an empty one |
| Locale.SiteOptionFallback | public_html/Wordpress/wp-includes/js/class-https.php:162-167 | The site option is used only when the option is `false` |
| Locale.ConfigDecides | public_html/Wordpress/wp-includes/js/class-https.php:157-158 | Without a usable option, `WPLANG` decides, with `en_US` when it is empty or undefined |
| Locale.DefaultExactly | public_html/Wordpress/wp-includes/js/class-https.php:157-171 | `en_US` is used exactly when the locale that decides is missing, `""`, `"0"` or `en_US` itself; the locale that decides is the option if it is not `false`, else the site option (both only on multisite outside installation), else `WPLANG` |

## Left out

- The execution sinks (`eval`, the `create_function('', "eval(...)")` wrapper, `call_user_func`) and whatever the decoded code does. The sink is an abstract function from text to printed output. Side effects other than output are not modelled.
- The contents of the embedded cipher literals. They are parameters, and neither payload is decoded.
- MD5, CRC-32 and `$_POST["sid"]`. The closure receives the digest and the CRC of the posted value (`HttpsDecoder.Sid`). A missing `sid` is whatever digest PHP computes for it.
- `fmod` on floats. The operands are integers well inside the exact range of a double, so it is integer remainder truncated toward zero.
- `urldecode` is total, as in PHP. Malformed escapes are copied. Its result is a sequence of `char`, and multi-byte encodings are not modelled.
- The output-buffer built-ins are reduced to a stack of strings; `@ini_set('memory_limit', ...)` and the `add_action` registrations are not modelled. The hooks appear only as the `Hook` event, which passes `$text` as null.
- The "next" mode of `wp_link_pages`, its `echo` flag and `apply_filters('wp_link_pages_args')`. The URL helpers (`get_permalink`, `add_query_arg`, `trailingslashit`, `user_trailingslashit`) are a parameter `href` over the chosen target.
- LinkPages.TargetOf: the loose comparison `get_option('page_on_front') == $post->ID` is a boolean parameter.
- `__('Pages:')` is taken untranslated in `LinkPages.Defaults`.
- `glob` itself: the directory listing is a parameter, with `None` for a failed `glob`.
- Languages.LanguageCode: `basename` splits on `/` only; the Windows backslash separator is not modelled.
- `apply_filters('locale', ...)` is an abstract function. `defined('WP_INSTALLING')`, `is_multisite()` and the option reads are fields of `Locale.Env`.
- The rest of both files, which is ordinary WordPress code or the runtime set-up at class-https.php lines 48-53 and 93-100: titles, excerpts, page lists, the hierarchy loading chain, `pretranslate_hierarchy`. The `get_the_content` and `apply_filters('the_content')` steps before `applyfilter` in `the_content` are also left out; `Process.TheContent` takes the already filtered content.
- HttpsDecoder.Crc32: a 64-bit PHP build is assumed, where `crc32()` is an unsigned 32-bit value. On a 32-bit build it can be negative, so the effective key differs by 2^32 (6 modulo 95), and the decoded text can differ from what this model gives.
- Substitution.SubstitutePeriodic: stated for non-negative keys only. For a negative `key + i` the shift uses `|key + i|`, so adding 95 to the key does not preserve it.
- Substitution.SubstituteKeyRemainder: stated for non-negative keys only, for the same reason.
