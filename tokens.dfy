/** The two hook callbacks: the one that advertises the tokens [allusers] and
    [allusers.table] in the report engine's token catalogue, and the one that supplies
    their values for a report on one site. PHP arrays are values: each callback works
    on its own copy of the array it is given and returns the updated copy. */
module Tokens {
  import opened Php
  import opened Fields
  import opened Render
  import opened Decoded

  const ListToken := "[allusers]"
  const TableToken := "[allusers.table]"

  /** The value both tokens take when the site has no users. */
  const NoUsers := "No users found"

  // ------------------------------------------------------------ token catalogue

  /** What the catalogue filter receives: an array of token descriptions keyed by
      token, or some other PHP value (null, a string, ...). */
  datatype Catalog = CatalogArray(entries: map<string, string>) | NotAnArray

  /** register_token. tr stands for esc_html__, translation followed by escaping. */
  method RegisterToken(tokens: Catalog, tr: string -> string) returns (r: map<string, string>)
    ensures r.Keys == (if tokens.CatalogArray? then tokens.entries.Keys else {}) + {ListToken, TableToken}
    ensures r[ListToken] == tr("List all users on the site")
    ensures r[TableToken] == tr("Display all users in a table format")
    ensures tokens.CatalogArray? ==>
              forall k :: k in tokens.entries && k != ListToken && k != TableToken ==> r[k] == tokens.entries[k]
  {
    var t: map<string, string>;
    if tokens.CatalogArray? {
      t := tokens.entries;
    } else {
      t := map[];
    }
    t := t[ListToken := tr("List all users on the site")];
    t := t[TableToken := tr("Display all users in a table format")];
    r := t;
  }

  // ------------------------------------------------------------ token values

  const Body := "body"
  const Header := "header"

  /** The parts of the parsed-tokens array the value filter touches:
        tokens      ['other_tokens'], the token names of each section ("body", "header", ...)
        tokensData  ['other_tokens_data'], the token values of each section
      None stands for an entry that isset() reports as not set. */
  datatype ParsedTokens = ParsedTokens(
    tokens: Option<map<string, seq<string>>>,
    tokensData: Option<map<string, map<string, string>>>)

  /** A site identifier as it may be stored: a number or a string. */
  datatype SiteId = NumericId(n: int) | TextId(s: string)

  /** The site descriptor handed to the filter: an object or an array that may carry
      an id, or any other value. */
  datatype Website = WebsiteObject(id: Option<SiteId>) | WebsiteArray(id: Option<SiteId>) | OtherWebsite

  /** The site id: the object's id property, else the array's id key, else none. */
  function SiteIdOf(w: Website): Option<SiteId>
  {
    match w
    case WebsiteObject(id) => id
    case WebsiteArray(id) => id
    case OtherWebsite => None
  }

  /** PHP truthiness of an id: 0, "" and "0" are false. */
  predicate Truthy(id: SiteId)
  {
    match id
    case NumericId(n) => n != 0
    case TextId(s) => !EmptyString(s)
  }

  /** There is a site id and PHP treats it as true. */
  predicate HasSite(w: Website)
  {
    SiteIdOf(w).Some? && Truthy(SiteIdOf(w).value)
  }

  /** The decoded users of the report's site. fetch stands for the stored users column
      of the site's row, decoded from JSON, and empty when the row, the column or the
      decoding yields no list. Without a usable id nothing is fetched. */
  function UsersFor(w: Website, fetch: SiteId -> seq<PhpValue>): seq<PhpValue>
  {
    if HasSite(w) then fetch(SiteIdOf(w).value) else []
  }

  /** The records the renderers read for the site's users. */
  function SiteUsers(w: Website, fetch: SiteId -> seq<PhpValue>): seq<User>
  {
    Records(UsersFor(w, fetch))
  }

  /** An object and an array descriptor with the same id select the same site and the
      same users. */
  lemma ObjectArrayAlike(id: Option<SiteId>, fetch: SiteId -> seq<PhpValue>)
    ensures SiteIdOf(WebsiteObject(id)) == SiteIdOf(WebsiteArray(id)) == id
    ensures UsersFor(WebsiteObject(id), fetch) == UsersFor(WebsiteArray(id), fetch)
  {
  }

  /** Without a truthy id the database is not consulted: there are no users, whatever
      fetch would return. Any other descriptor never has a site. */
  lemma NoSiteIgnoresFetch(w: Website, f: SiteId -> seq<PhpValue>, g: SiteId -> seq<PhpValue>)
    ensures w.OtherWebsite? ==> !HasSite(w)
    ensures !HasSite(w) ==> UsersFor(w, f) == UsersFor(w, g) == []
  {
  }

  /** With a truthy id only what is stored for that id matters. */
  lemma FetchOnlyAtSiteId(w: Website, f: SiteId -> seq<PhpValue>, g: SiteId -> seq<PhpValue>)
    requires HasSite(w) && f(SiteIdOf(w).value) == g(SiteIdOf(w).value)
    ensures UsersFor(w, f) == UsersFor(w, g)
  {
  }

  /** The value of [allusers]. */
  function ListValue(users: seq<User>, esc: string -> string): string
  {
    if users == [] then NoUsers else Trim(ListText(users, esc))
  }

  /** The value of [allusers.table]. */
  function TableValue(users: seq<User>, esc: string -> string, fmt: string -> string): string
  {
    if users == [] then NoUsers else TableHeader + TableRows(users, esc, fmt) + TableFooter
  }

  /** Without a truthy site id both tokens are "No users found", whatever fetch returns. */
  lemma NoSiteNoUsers(w: Website, fetch: SiteId -> seq<PhpValue>, esc: string -> string, fmt: string -> string)
    ensures !HasSite(w) ==> ListValue(SiteUsers(w, fetch), esc) == NoUsers
    ensures !HasSite(w) ==> TableValue(SiteUsers(w, fetch), esc, fmt) == NoUsers
  {
    if !HasSite(w) {
      assert SiteUsers(w, fetch) == [];
    }
  }

  /** The list value is the "No users found" sentinel exactly when there are no users:
      a real list always keeps a ')' that the sentinel does not have. */
  lemma ListSentinelExactlyWhenEmpty(users: seq<User>, esc: string -> string)
    ensures ListValue(users, esc) == NoUsers <==> users == []
  {
    if users != [] {
      ListKeepsSeparator(users, esc);
      SentinelHasNoParenthesis();
      assert ListValue(users, esc) == Trim(ListText(users, esc));
    }
  }

  lemma SentinelHasNoParenthesis()
    ensures ')' !in NoUsers
  {
  }

  /** The table value is the "No users found" sentinel exactly when there are no users:
      a real table always ends with the '>' of its closing tag. */
  lemma TableSentinelExactlyWhenEmpty(users: seq<User>, esc: string -> string, fmt: string -> string)
    ensures TableValue(users, esc, fmt) == NoUsers <==> users == []
  {
    if users != [] {
      var t := TableHeader + TableRows(users, esc, fmt) + TableFooter;
      assert TableFooter[|TableFooter| - 1] == '>';
      assert t[|t| - 1] == '>';
      assert NoUsers[|NoUsers| - 1] == 'd';
    }
  }

  function OrEmpty<V>(o: Option<map<string, V>>): map<string, V>
  {
    if o.Some? then o.value else map[]
  }

  function NamesIn(m: map<string, seq<string>>, section: string): seq<string>
  {
    if section in m then m[section] else []
  }

  function ValuesIn(m: map<string, map<string, string>>, section: string): map<string, string>
  {
    if section in m then m[section] else map[]
  }

  /** The array with the given section, set to empty when it is not there yet. */
  function WithSection<V>(m: map<string, V>, section: string, empty: V): (r: map<string, V>)
    ensures r.Keys == m.Keys + {section}
    ensures section in m ==> r == m
    ensures section !in m ==> r[section] == empty
    ensures forall s :: s in m ==> r[s] == m[s]
  {
    if section in m then m else m[section := empty]
  }

  /** other_tokens after the value filter: the array and its body and header lists
      exist, and both lists end with the two tokens. */
  function AddedNames(tokens: Option<map<string, seq<string>>>): (names: map<string, seq<string>>)
    ensures names.Keys == OrEmpty(tokens).Keys + {Body, Header}
    ensures names[Body] == NamesIn(OrEmpty(tokens), Body) + [ListToken, TableToken]
    ensures names[Header] == NamesIn(OrEmpty(tokens), Header) + [ListToken, TableToken]
    ensures forall s :: s in OrEmpty(tokens) && s != Body && s != Header ==> names[s] == OrEmpty(tokens)[s]
  {
    assert Body != Header by {
      assert |Body| != |Header|;
    }
    var m := OrEmpty(tokens);
    m[Body := NamesIn(m, Body) + [ListToken, TableToken]][Header := NamesIn(m, Header) + [ListToken, TableToken]]
  }

  /** other_tokens_data after the value filter: the array and its body and header
      maps exist, and both maps send [allusers] to the list and [allusers.table] to
      the table. */
  function SetValues(data: Option<map<string, map<string, string>>>, list: string, table: string)
    : (values: map<string, map<string, string>>)
    ensures values.Keys == OrEmpty(data).Keys + {Body, Header}
    ensures values[Body].Keys == ValuesIn(OrEmpty(data), Body).Keys + {ListToken, TableToken}
    ensures values[Header].Keys == ValuesIn(OrEmpty(data), Header).Keys + {ListToken, TableToken}
    ensures ListToken in values[Body] && values[Body][ListToken] == list
    ensures ListToken in values[Header] && values[Header][ListToken] == list
    ensures TableToken in values[Body] && values[Body][TableToken] == table
    ensures TableToken in values[Header] && values[Header][TableToken] == table
    ensures forall t :: t in ValuesIn(OrEmpty(data), Body) && t != ListToken && t != TableToken ==>
              t in values[Body] && values[Body][t] == ValuesIn(OrEmpty(data), Body)[t]
    ensures forall t :: t in ValuesIn(OrEmpty(data), Header) && t != ListToken && t != TableToken ==>
              t in values[Header] && values[Header][t] == ValuesIn(OrEmpty(data), Header)[t]
    ensures forall s :: s in OrEmpty(data) && s != Body && s != Header ==> values[s] == OrEmpty(data)[s]
  {
    assert Body != Header by {
      assert |Body| != |Header|;
    }
    assert ListToken != TableToken by {
      assert |ListToken| != |TableToken|;
    }
    var base := WithSection(WithSection(OrEmpty(data), Body, map[]), Header, map[]);
    assert base[Body] == ValuesIn(OrEmpty(data), Body);
    assert base[Header] == ValuesIn(OrEmpty(data), Header);
    var body := base[Body][ListToken := list][TableToken := table];
    var header := base[Header][ListToken := list][TableToken := table];
    base[Body := body][Header := header]
  }

  /** The name half of the value filter: make sure other_tokens and its body and header
      lists exist, then append both tokens to each list. */
  method AddTokenNames(tokens: Option<map<string, seq<string>>>) returns (names: map<string, seq<string>>)
    ensures names == AddedNames(tokens)
  {
    if tokens.None? {
      names := map[];
    } else {
      names := tokens.value;
    }
    if Body !in names {
      names := names[Body := []];
    }
    if Header !in names {
      names := names[Header := []];
    }
    ghost var before := names;
    names := names[Body := names[Body] + [ListToken]];
    names := names[Body := names[Body] + [TableToken]];
    assert names[Body] == before[Body] + [ListToken, TableToken];
    ghost var middle := names;
    names := names[Header := names[Header] + [ListToken]];
    names := names[Header := names[Header] + [TableToken]];
    assert names[Header] == middle[Header] + [ListToken, TableToken];
  }

  /** The value half of the value filter: make sure other_tokens_data and its body and
      header maps exist, then set both tokens in each map. */
  method SetTokenValues(data: Option<map<string, map<string, string>>>, list: string, table: string)
    returns (values: map<string, map<string, string>>)
    ensures values == SetValues(data, list, table)
  {
    if data.None? {
      values := map[];
    } else {
      values := data.value;
    }
    if Body !in values {
      values := values[Body := map[]];
    }
    if Header !in values {
      values := values[Header := map[]];
    }
    ghost var base := values;
    assert base == WithSection(WithSection(OrEmpty(data), Body, map[]), Header, map[]);
    values := values[Body := values[Body][ListToken := list]];
    values := values[Body := values[Body][TableToken := table]];
    assert values == base[Body := base[Body][ListToken := list][TableToken := table]];
    ghost var middle := values;
    values := values[Header := values[Header][ListToken := list]];
    values := values[Header := values[Header][TableToken := table]];
    assert values == middle[Header := middle[Header][ListToken := list][TableToken := table]];
  }

  /** The value filter for the report engine's parsed tokens: it registers the two
      token names in the body and header sections and gives both tokens their values
      for the report's site, in both sections. */
  method ParsedOtherTokens(p: ParsedTokens, website: Website, fetch: SiteId -> seq<PhpValue>,
                           esc: string -> string, fmt: string -> string) returns (q: ParsedTokens)
    ensures q.tokens == Some(AddedNames(p.tokens))
    ensures q.tokensData == Some(SetValues(p.tokensData,
                                           ListValue(SiteUsers(website, fetch), esc),
                                           TableValue(SiteUsers(website, fetch), esc, fmt)))
    ensures !HasSite(website) ==> q.tokensData == Some(SetValues(p.tokensData, NoUsers, NoUsers))
  {
    var names := AddTokenNames(p.tokens);

    // the users of the site
    var siteId := SiteIdOf(website);
    var decoded: seq<PhpValue> := [];
    if siteId.Some? && Truthy(siteId.value) {
      decoded := fetch(siteId.value);
    }
    var users := Records(decoded);

    // the values of both tokens, in both sections
    var list, table;
    if users != [] {
      list := FormatUsersList(users, esc);
      table := FormatUsersTable(users, esc, fmt);
    } else {
      list := NoUsers;
      table := NoUsers;
    }
    NoSiteNoUsers(website, fetch, esc, fmt);
    var values := SetTokenValues(p.tokensData, list, table);
    q := ParsedTokens(Some(names), Some(values));
  }
}
