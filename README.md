# MainWP Pro Reports — All Users token, in Dafny

A model of the WordPress plugin "MainWP Pro Reports Extension - All Users". The plugin
adds two tokens to MainWP Pro Reports: `[allusers]`, a plain-text list of a child site's
users, and `[allusers.table]`, the same users as an HTML table. The model covers:

- the token catalogue filter `register_token`;
- the tolerant field extraction that reads a user's login, email, roles and
  registration date through fixed fallback chains;
- the two renderers `format_users_list` and `format_users_table`;
- the `mainwp_pro_reports_parsed_other_tokens` filter. It registers both tokens in the
  report's body and header sections and fills in their values for the report's site.

Modules:

- `Php` (php.dfy): the PHP semantics the plugin leans on. It covers isset() as an
  `Option`, empty() on strings, implode() and trim().
- `Fields` (fields.dfy): the user record and its fallback chains, as pure functions.
  The chains are instances of one ordered first-match lookup, `FirstOf`.
- `Render` (render.dfy): the two renderers. Each is a method with the source's
  appending `foreach` loop. Each is proved equal to a specification function:
  `ListText`, or the header, `TableRows` and the footer. Both specifications are
  instances of `Rendered`, the in-order concatenation of one piece per user.
- `Tokens` (tokens.dfy): both filters. PHP arrays are values, so each filter is a
  method that updates its own copy of the array and returns it.
- `Decoded` (decoded.dfy): the login and email chains on the stdClass objects that
  json_decode() yields. This is the finding below.

Four parameters stay uninterpreted:

- `esc` stands for esc_html.
- `tr` stands for esc_html__.
- `fmt` stands for `date('Y-m-d', strtotime(...))`.
- `fetch` stands for the database read of the site's users column and its JSON
  decoding. It yields decoded users, each an object or an array (`Decoded.PhpValue`),
  which the filter reads through `Decoded.AsRecord`.

Points where the behaviour might be expected to differ, and the model follows the code:

- There is no "Error fetching users" fallback. A failed query or a failed decode
  gives no users, and so "No users found".
- A registration date that strtotime() cannot parse is not shown as "N/A". It is still
  passed through the date formatting.
- Login and email take the first candidate that is set, even when it is the empty
  string. They are not "the first non-empty" candidate.
- The plugin only supplies the token values. The report engine does the replacement in
  the report text.

## Model

| member | source | states |
|---|---|---|
| Php.Trim | mainwp-pro-reports-extension-all-users.php:89 | trim() leaves no strippable character (space, tab, LF, CR, NUL, vertical tab) at either end and never lengthens the string |
| Php.TrimUnique | mainwp-pro-reports-extension-all-users.php:89 | trim() is determined by its meaning: a string with no strippable character at its ends, framed by runs of strippable characters, trims to exactly itself |
| Php.TrimKeeps | mainwp-pro-reports-extension-all-users.php:89 | trim() removes only characters at the two ends: every character that is not strippable survives at its own place, shifted left by exactly the number of characters stripped from the front |
| Php.TrimIdempotent | mainwp-pro-reports-extension-all-users.php:89 | trimming a trimmed string changes nothing |
| Fields.FirstAccepted | mainwp-pro-reports-extension-all-users.php:71 | the position found is the first candidate that is set and accepted: every earlier one is rejected; the position is the length when none is accepted |
| Fields.FirstOf | mainwp-pro-reports-extension-all-users.php:71 | ordered first-match lookup: the candidate at the first accepted position, or none when no candidate is accepted |
| Fields.Login | mainwp-pro-reports-extension-all-users.php:71 | the login is the first candidate that isset() accepts, in the order object login, array login, object user_login, array user_login, with an empty string winning when set; it is "" when none is set |
| Fields.Email | mainwp-pro-reports-extension-all-users.php:73 | the email is the first set candidate along email, ['email'], user_email, ['user_email'], else "" |
| Fields.RoleNames | mainwp-pro-reports-extension-all-users.php:75-81 | the role text comes from the first of role, roles that is set and non-empty; a list is joined with ", "; it is exactly "No role" when neither qualifies. The list and the table both use this one function, as lines 112-118 repeat lines 75-81 |
| Fields.RegistrationDate | mainwp-pro-reports-extension-all-users.php:120-126 | the date cell is fmt of the first of user_registered, registered that is non-empty, else "N/A" |
| Fields.AlternateNamesAgree | mainwp-pro-reports-extension-all-users.php:71-81 | a record carrying only user_login, user_email and roles reads the same as one carrying those values under login, email and role |
| Render.RenderedAt | mainwp-pro-reports-extension-all-users.php:69-88 | order and multiplicity of the pieces: the text for user i sits between the text for the users before it and the text for the users after it |
| Render.FormatUsersList | mainwp-pro-reports-extension-all-users.php:67-90 | the result is trim() of the in-order concatenation of one `esc(login) + " (" + esc(email) + ") - " + esc(roles) + "\n"` per user; the loop invariant says the output so far is that concatenation over the users seen |
| Render.ListLinePerUser | mainwp-pro-reports-extension-all-users.php:82-87 | one line per user: when no user's escaped login, email or role text holds a line feed, the untrimmed list holds exactly as many line feeds as there are users |
| Render.ListOfNoUsers | mainwp-pro-reports-extension-all-users.php:68-89 | with no users the list is "" |
| Render.ListKeepsSeparator | mainwp-pro-reports-extension-all-users.php:82-89 | the list of at least one user keeps a ")" after trimming, so it is never empty |
| Render.LineSeparator | mainwp-pro-reports-extension-all-users.php:82-87 | in every line the ")" closing the email stands right after the escaped login, " (" and the escaped email |
| Render.ListOfOne | mainwp-pro-reports-extension-all-users.php:69-88 | the untrimmed list of one user is that user's line |
| Render.TrimsLineFeed | mainwp-pro-reports-extension-all-users.php:89 | trimming removes the last line feed of a line whose ends are not strippable, and nothing else |
| Render.ExampleListLine | mainwp-pro-reports-extension-all-users.php:71-87 | a user with login alice, email a@x.com and roles [editor, author] under roles gives the line "alice (a@x.com) - editor, author" followed by a line feed |
| Render.AliceFields | mainwp-pro-reports-extension-all-users.php:71-81 | for the example user the login and email come from the first candidates and the role text from the list under roles, joined with ", " |
| Render.ListExample | mainwp-pro-reports-extension-all-users.php:67-90 | with an escaper that changes nothing, the list of that one user is "alice (a@x.com) - editor, author" |
| Render.FormatUsersTable | mainwp-pro-reports-extension-all-users.php:98-142 | the result is the fixed four-column header, then one row per user in input order, then "</tbody></table>"; the loop invariant says the output so far is the header and the rows of the users seen |
| Render.RowCells | mainwp-pro-reports-extension-all-users.php:127-138 | a row is `<tr>`, then the user's four cells in column order (escaped login, email, role text, date), each in a styled `<td>`, then `</tr>` |
| Render.TableRowAt | mainwp-pro-reports-extension-all-users.php:106-141 | in the table, user i's row stands after the header and the rows of the users before it, and before the rows of the users after it and the footer |
| Render.TableOfNoUsers | mainwp-pro-reports-extension-all-users.php:99-141 | with no users the table is exactly the header followed by the footer |
| Render.TableExample | mainwp-pro-reports-extension-all-users.php:108-138 | the example user's cells are alice, a@x.com, "editor, author" and N/A, in that order |
| Tokens.RegisterToken | mainwp-pro-reports-extension-all-users.php:52-59 | the result holds the keys it was given (none when the input is not an array) plus the two tokens; the tokens map to their translated descriptions; every other key keeps its value |
| Tokens.ObjectArrayAlike | mainwp-pro-reports-extension-all-users.php:193-197 | an object descriptor and an array descriptor carrying the same id select the same site id and the same users |
| Tokens.NoSiteIgnoresFetch | mainwp-pro-reports-extension-all-users.php:192-199 | a descriptor that is neither object nor array has no site; without a truthy site id there are no users, whatever the database holds |
| Tokens.FetchOnlyAtSiteId | mainwp-pro-reports-extension-all-users.php:199-208 | with a truthy site id the users depend only on what is stored for that id |
| Tokens.NoSiteNoUsers | mainwp-pro-reports-extension-all-users.php:199-218 | without a truthy site id both token values are "No users found", whatever the database holds |
| Tokens.WithSection | mainwp-pro-reports-extension-all-users.php:171-182 | a guarded initialisation adds the section, empty, only when it is missing, and keeps every existing section |
| Tokens.ListSentinelExactlyWhenEmpty | mainwp-pro-reports-extension-all-users.php:212-218 | the [allusers] value is "No users found" exactly when there are no users |
| Tokens.TableSentinelExactlyWhenEmpty | mainwp-pro-reports-extension-all-users.php:212-218 | the [allusers.table] value is "No users found" exactly when there are no users |
| Tokens.AddedNames | mainwp-pro-reports-extension-all-users.php:165-188 | after the filter, other_tokens holds its old sections plus body and header; body and header are each their old list (or the empty list) followed by [allusers], [allusers.table]; other sections are unchanged |
| Tokens.SetValues | mainwp-pro-reports-extension-all-users.php:168-223 | after the filter, other_tokens_data holds its old sections plus body and header; both map [allusers] to the list and [allusers.table] to the table; their keys are their old keys plus exactly those two tokens, and their other tokens and the other sections are unchanged |
| Tokens.AddTokenNames | mainwp-pro-reports-extension-all-users.php:165-188 | the guarded initialisations and the four appends produce exactly AddedNames |
| Tokens.SetTokenValues | mainwp-pro-reports-extension-all-users.php:168-223 | the guarded initialisations and the four value writes produce exactly SetValues |
| Tokens.ParsedOtherTokens | mainwp-pro-reports-extension-all-users.php:163-226 | the filter's result has the token names of AddedNames, and the values of SetValues for the records of the site's decoded users: the list and table when there are users, "No users found" for both otherwise, in particular whenever there is no truthy site id |
| Decoded.ChainOnObject | mainwp-pro-reports-extension-all-users.php:71-73 | on an object, the chain as written (property, then array key raising, then alternative property, then alternative key) yields a value exactly when the first property is set, and that property's value; otherwise it raises |
| Decoded.ChainOnArray | mainwp-pro-reports-extension-all-users.php:71-73 | on an array, the chain as written never raises: it yields the first key that is set, else the alternative key, else "" |
| Decoded.AsRecord | mainwp-pro-reports-extension-all-users.php:71-126 | an object is read through its properties, with every array-key path unset; an array through its keys, with no property, so with no role and no registration date |
| Decoded.ObjectRolesAndDate | mainwp-pro-reports-extension-all-users.php:112-126 | an object's role text is its non-empty role, else its non-empty roles, else "No role"; its date is fmt of the first non-empty of user_registered, registered, else "N/A" |
| Decoded.ArrayHasNoRoleOrDate | mainwp-pro-reports-extension-all-users.php:112-126 | a decoded array always shows "No role" and "N/A", since roles and dates are read only as properties |
| Decoded.Records | mainwp-pro-reports-extension-all-users.php:203-205 | the decoded users are read one record each, in order |
| Decoded.UserLoginOnlyRaises | mainwp-pro-reports-extension-all-users.php:71 | a user carrying only user_login makes the login chain as written raise |
| Decoded.UserEmailOnlyRaises | mainwp-pro-reports-extension-all-users.php:73 | a user carrying only user_email makes the email chain as written raise |
| Decoded.IntendedChainsReachFallbacks | mainwp-pro-reports-extension-all-users.php:71-73 | the intended chains fall through to user_login and user_email on a decoded object, and to "" when neither is present |
| Decoded.IntendedAgreesWithWritten | mainwp-pro-reports-extension-all-users.php:71-73 | wherever the chains as written do not raise, the intended chains give the same login and email |

## Left out

- The database query and json_decode() (lines 191, 199-208) are not modelled. They are
  the uninterpreted `fetch`, which yields a possibly empty sequence of users.
- strtotime() and date() (lines 121, 123) are not modelled. They are the uninterpreted
  `fmt`, so nothing is claimed about how a date is parsed or printed.
- esc_html() and esc_html__() (lines 56-57, 84-86, 134-137) are not modelled. They
  are the uninterpreted `esc` and `tr`, and no property of the escaping is claimed.
- The singleton `get_instance`, the constructor, the add_filter/add_action registration
  and the class_exists guard (lines 26-44, 148-153, 163) are left out. They are hook
  plumbing.
- The order of keys in PHP arrays is not modelled. Maps are unordered, so the position
  of the two new catalogue keys and the two new value keys is not captured. The
  order of the token-name lists is modelled.
- The filter's other entries of the parsed-tokens array, and its `$report` argument,
  are not modelled. The filter neither reads nor writes them.
- Values of unexpected PHP types are not modelled: a non-array section inside
  other_tokens, a login or email that is not a string, a role that is neither a
  string nor a list, a site id that is neither an integer nor a string. Each field
  holds a string or a role value.
- Fields.Login: models the chain as intended, in which an access path that does not
  apply to the value counts as not set. The Error the chain as written raises on
  decoded objects is modelled in `Decoded` (see Findings).
- Fields.Email: the same as Fields.Login, for the email chain.
- Tokens.ParsedOtherTokens: renders with the intended chains. When a decoded object
  lacks login or email, the source's uncaught Error ends the filter and propagates
  out of it to the report engine that called it. The model does not capture that
  abort; `Decoded` states when it happens.
- Decoded.AsRecord: a decoded property holds a string. A role property that decodes
  to a list is covered by `Fields.RoleNames`, which takes a list, but not by `Decoded`.

## Findings

| source | as written | input that shows it | evidently intended | confidence | as-written member | corrected member |
|---|---|---|---|---|---|---|
| mainwp-pro-reports-extension-all-users.php:71 | when the login property is not set, the chain tests `isset($user['login'])`; the users come from json_decode() without its associative flag, so `$user` is a stdClass object, and array access on such an object raises an Error even inside isset() | a decoded user object `{"user_login": "alice"}` | fall through to user_login, then to "" | medium, not executed | Decoded.UserLoginOnlyRaises | Decoded.IntendedChainsReachFallbacks |
| mainwp-pro-reports-extension-all-users.php:73 | the email chain tests `isset($user['email'])` on the same objects, with the same Error | a decoded user object `{"user_email": "a@x.com"}` | fall through to user_email, then to "" | medium, not executed | Decoded.UserEmailOnlyRaises | Decoded.IntendedChainsReachFallbacks |
