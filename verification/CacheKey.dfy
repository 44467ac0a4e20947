/** Cache keys: how they are built, and when two of them can be the same. */
module CacheKey {
  import opened Seqs
  import Decimal

  lemma {:induction false} JoinSnoc(pieces: seq<string>, piece: string)
    requires pieces != []
    ensures Join(pieces + [piece], ':') == Join(pieces, ':') + ":" + piece
  {
    if |pieces| == 1 {
      assert (pieces + [piece])[1..] == [piece];
    } else {
      JoinSnoc(pieces[1..], piece);
      assert (pieces + [piece])[1..] == pieces[1..] + [piece];
      assert Join(pieces, ':') == pieces[0] + [':'] + Join(pieces[1..], ':');
    }
  }

  /** `pieces` lists what the key joins, `names` what the tag joins. */
  class CacheItem {
    var tag: string
    var key: string
    ghost var pieces: seq<string>
    ghost var names: seq<string>

    ghost predicate Valid()
      reads this
    {
      pieces != [] && names != [] && key == Join(pieces, ':') && tag == Join(names, ':')
    }

    constructor NewItem(tagParts: seq<string>)
      ensures Valid() && key == tag
      ensures pieces == names == if tagParts == [] then [""] else tagParts
    {
      tag := Join(tagParts, ':');
      key := Join(tagParts, ':');
      pieces := if tagParts == [] then [""] else tagParts;
      names := if tagParts == [] then [""] else tagParts;
    }

    /** `text` is the printed attribute value. */
    method Attr(name: string, text: string)
      requires Valid()
      modifies this
      ensures Valid()
      ensures pieces == old(pieces) + [name, text] && names == old(names) + [name]
    {
      JoinSnoc(names, name);
      JoinSnoc(pieces, name);
      JoinSnoc(pieces + [name], text);
      tag := tag + ":" + name;
      key := key + ":" + name + ":" + text;
      pieces, names := pieces + [name, text], names + [name];
      assert pieces == old(pieces) + [name] + [text];
      assert key == Join(old(pieces), ':') + ":" + name + (":" + text);
    }
  }

  ghost predicate ColonFree(pieces: seq<string>) {
    forall p :: p in pieces ==> ':' !in p
  }

  /** Colons are not escaped; without colons in the pieces, the key tells all of them. */
  lemma ColonFreeKeysDiffer(a: seq<string>, b: seq<string>)
    requires a != [] && b != [] && ColonFree(a) && ColonFree(b)
    ensures Join(a, ':') == Join(b, ':') ==> a == b
  {
    SplitJoin(a, ':');
    SplitJoin(b, ':');
  }

  /** With colons it does not: one attribute can print as two. */
  lemma ColonsAreAmbiguous(pieces: seq<string>, name: string, text: string, name': string, text': string)
    requires pieces != []
    ensures var one := pieces + [name, text + ":" + name' + ":" + text'];
      var two := pieces + [name, text, name', text'];
      Join(one, ':') == Join(two, ':') && one != two
  {
    var head := pieces + [name];
    var value := text + ":" + name' + ":" + text';
    JoinSnoc(head, value);
    JoinSnoc(head, text);
    JoinSnoc(head + [text], name');
    JoinSnoc(head + [text] + [name'], text');
    assert pieces + [name, value] == head + [value];
    assert pieces + [name, text, name', text'] == head + [text] + [name'] + [text'];
    var h := Join(head, ':') + ":" + text;
    assert Join(head, ':') + ":" + value == h + ":" + name' + ":" + text';
  }

  // ----- the keys in use -----

  datatype UserKey = ById(id: nat) | ByEmail(email: string) | ByToken(token: string)

  function UserKeyText(k: UserKey): string {
    match k
    case ById(id) => "user:id:" + Decimal.Format(id)
    case ByEmail(email) => "user:email:" + email
    case ByToken(token) => "user:api_token:" + token
  }

  lemma SamePrefix(p: string, a: string, b: string)
    requires p + a == p + b
    ensures a == b
  {
    assert (p + a)[|p|..] == a;
    assert (p + b)[|p|..] == b;
  }

  /** Users looked up by id, email or token never share a key, whatever the email or token is. */
  lemma UserKeysDiffer(a: UserKey, b: UserKey)
    requires UserKeyText(a) == UserKeyText(b)
    ensures a == b
  {
    assert UserKeyText(a)[5] == UserKeyText(b)[5];
    match a
    case ById(id) =>
      SamePrefix("user:id:", Decimal.Format(id), Decimal.Format(b.id));
      Decimal.NumberFormat(id);
      Decimal.NumberFormat(b.id);
    case ByEmail(email) => SamePrefix("user:email:", email, b.email);
    case ByToken(token) => SamePrefix("user:api_token:", token, b.token);
  }

  /** Whom a request is counted against. */
  datatype Client = User(id: nat) | Ip(text: string)

  /** What follows the route in the key. */
  function ClientText(c: Client): string {
    if c.User? then ":user_id:" + Decimal.Format(c.id) else ":client_ip:" + c.text
  }

  /** The key of a rate-limit counter. */
  function RateKeyText(route: string, c: Client): string {
    "http-rate-limit:route:" + (route + ClientText(c))
  }

  lemma ClientsDiffer(c: Client, c': Client)
    requires ClientText(c) == ClientText(c')
    ensures c == c'
  {
    assert ClientText(c)[1] == ClientText(c')[1];
    if c.User? {
      SamePrefix(":user_id:", Decimal.Format(c.id), Decimal.Format(c'.id));
      Decimal.NumberFormat(c.id);
      Decimal.NumberFormat(c'.id);
    } else {
      SamePrefix(":client_ip:", c.text, c'.text);
    }
  }

  /** The longer route is the shorter one and a colon, `client_ip`, and then nothing or another colon. */
  predicate Extends(r: string, r': string) {
    && |r| + 10 <= |r'| && r'[..|r|] == r && r'[|r|..|r| + 10] == ":client_ip"
    && (|r'| == |r| + 10 || r'[|r| + 10] == ':')
  }

  lemma SameLength(a: string, b: string, c: string, d: string)
    requires a + b == c + d && |a| == |c|
    ensures a == c && b == d
  {
    assert (a + b)[..|a|] == a && (c + d)[..|a|] == c;
    assert (a + b)[|a|..] == b && (c + d)[|a|..] == d;
  }

  /** After the first colon of a user's text comes one more, before the digits. */
  lemma UserColons(id: nat, k: nat)
    requires 1 <= k && k + 1 < |":user_id:" + Decimal.Format(id)|
    ensures var t := ":user_id:" + Decimal.Format(id); t[k] == ':' ==> Decimal.IsDigit(t[k + 1])
  {
    var digits := Decimal.Format(id);
    if 9 <= k {
      assert (":user_id:" + digits)[k] == digits[k - 9];
    } else if k == 8 {
      assert (":user_id:" + digits)[9] == digits[0];
    }
  }

  /** After the first colon of an address's text the next one ends the name. */
  lemma AddressColons(text: string, k: nat)
    requires 1 <= k < |":client_ip:" + text|
    ensures (":client_ip:" + text)[k] == ':' ==> 10 <= k
    ensures (":client_ip:" + text)[..10] == ":client_ip" && (":client_ip:" + text)[10] == ':'
  {
  }

  lemma StartsOver(c: Client)
    ensures |ClientText(c)| >= 9 && ClientText(c)[0] == ':' && ClientText(c)[1] in {'u', 'c'}
  {
  }

  lemma Inside(t: string, w: string, u: string)
    requires t == w + u && |u| >= 2
    ensures t[|w|] == u[0] && t[|w| + 1] == u[1] && t[..|w|] == w
  {
  }

  /** Only the text of an address holds that of another client, and then after its name. */
  lemma ColonPlaces(c: Client, c': Client, w: string)
    requires w != [] && ClientText(c) == w + ClientText(c')
    ensures 10 <= |w| && w[..10] == ":client_ip" && (|w| == 10 || w[10] == ':')
  {
    StartsOver(c');
    Inside(ClientText(c), w, ClientText(c'));
    if c.User? {
      UserColons(c.id, |w|);
    } else {
      AddressColons(c.text, |w|);
      assert w[..10] == ClientText(c)[..|w|][..10];
    }
  }

  /** Of two ways to split one text, the later one splits the other's second part. */
  lemma LaterSplit(a: string, b: string, c: string, d: string)
    requires a + b == c + d && |a| <= |c|
    ensures c == a + c[|a|..] && b == c[|a|..] + d
  {
    assert c + d == c[..|a|] + (c[|a|..] + d);
    SameLength(a, b, c[..|a|], c[|a|..] + d);
  }

  lemma ExtendsBy(r: string, w: string)
    requires 10 <= |w| && w[..10] == ":client_ip" && (|w| == 10 || w[10] == ':')
    ensures Extends(r, r + w)
  {
    assert (r + w)[..|r|] == r;
    assert (r + w)[|r|..|r| + 10] == w[..10];
  }

  lemma LongerRouteExtends(r: string, c: Client, r': string, c': Client)
    requires r + ClientText(c) == r' + ClientText(c') && |r| < |r'|
    ensures Extends(r, r')
  {
    LaterSplit(r, ClientText(c), r', ClientText(c'));
    ColonPlaces(c, c', r'[|r|..]);
    ExtendsBy(r, r'[|r|..]);
  }

  /** Two routes with the same key are the same, or one extends the other. */
  lemma RoutesOfOneKey(r: string, c: Client, r': string, c': Client)
    requires RateKeyText(r, c) == RateKeyText(r', c')
    ensures (r == r' && c == c') || Extends(r, r') || Extends(r', r)
  {
    SamePrefix("http-rate-limit:route:", r + ClientText(c), r' + ClientText(c'));
    if |r| < |r'| {
      LongerRouteExtends(r, c, r', c');
    } else if |r'| < |r| {
      LongerRouteExtends(r', c', r, c);
    } else {
      SameLength(r, ClientText(c), r', ClientText(c'));
      ClientsDiffer(c, c');
    }
  }

  lemma ExtendingTakesAColon(r: string, r': string)
    ensures Extends(r, r') ==> ':' in r'
  {
    if Extends(r, r') {
      assert r'[|r|] == r'[|r|..|r| + 10][0];
    }
  }

  /** Distinct pairs of a route and a user or an address never share a counter, whatever the address is, if no route has
      a colon. */
  lemma RateKeysDiffer(r: string, c: Client, r': string, c': Client)
    requires ':' !in r && ':' !in r'
    requires RateKeyText(r, c) == RateKeyText(r', c')
    ensures r == r' && c == c'
  {
    RoutesOfOneKey(r, c, r', c');
    ExtendingTakesAColon(r, r');
    ExtendingTakesAColon(r', r);
  }

  /** The clients the middleware counts: it refuses a user without an id and a request without an address. */
  predicate Counted(c: Client) {
    if c.User? then 0 < c.id < Decimal.UINT64 else c.text != []
  }

  lemma RefusedClients()
    ensures !Counted(User(0)) && !Counted(User(0x1_0000_0000_0000_0000)) && !Counted(Ip(""))
    ensures Counted(User(1)) && Counted(User(0xffff_ffff_ffff_ffff)) && Counted(Ip("x"))
  {
  }

  lemma ExtendedRoutesCollide(r: string, r': string) returns (c: Client, c': Client)
    requires Extends(r, r')
    ensures Counted(c) && Counted(c') && RateKeyText(r, c) == RateKeyText(r', c')
  {
    var rest := r'[|r| + 10..] + ":client_ip:x";
    c, c' := Ip(rest[1..]), Ip("x");
    assert r' == r + ":client_ip" + r'[|r| + 10..];
    assert ":client_ip:" + rest[1..] == ":client_ip" + rest;
    assert r' + ":client_ip:x" == r + (":client_ip" + rest);
    assert ":client_ip:" + "x" == ":client_ip:x";
  }

  predicate CanShare(r: string, c: Client, r': string, c': Client) {
    Counted(c) && Counted(c') && RateKeyText(r, c) == RateKeyText(r', c')
  }

  /** Two routes can share a counter if and only if one extends the other, so that its key goes on as an address
      could. */
  lemma RoutesCollide(r: string, r': string)
    requires r != r'
    ensures (exists c, c' :: CanShare(r, c, r', c')) <==> Extends(r, r') || Extends(r', r)
  {
    if Extends(r, r') {
      var c, c' := ExtendedRoutesCollide(r, r');
      assert CanShare(r, c, r', c');
    }
    if Extends(r', r) {
      var c', c := ExtendedRoutesCollide(r', r);
      assert CanShare(r, c, r', c');
    }
    if exists c, c' :: CanShare(r, c, r', c') {
      var c, c' :| CanShare(r, c, r', c');
      RoutesOfOneKey(r, c, r', c');
    }
  }

  /** Counters and users do not share keys either. */
  lemma CountersAreNotUsers(route: string, c: Client, k: UserKey)
    ensures RateKeyText(route, c) != UserKeyText(k)
  {
    assert RateKeyText(route, c)[0] == 'h' && UserKeyText(k)[0] == 'u';
  }

  // ----- the items that carry them -----

  lemma JoinPair(a: string, name: string, text: string)
    ensures Join([a] + [name, text], ':') == a + ":" + name + ":" + text
  {
    assert [a] + [name, text] == [a] + [name] + [text];
    JoinSnoc([a] + [name], text);
    JoinSnoc([a], name);
  }

  lemma Literals()
    ensures "user" + ":" + "id" + ":" == "user:id:"
    ensures "user" + ":" + "email" + ":" == "user:email:"
    ensures "user" + ":" + "api_token" + ":" == "user:api_token:"
    ensures "http-rate-limit" + ":" + "route" + ":" == "http-rate-limit:route:"
    ensures ":" + "user_id" + ":" == ":user_id:"
    ensures ":" + "client_ip" + ":" == ":client_ip:"
  {
  }

  /** The item of a user lookup. */
  method UserItem(k: UserKey) returns (item: CacheItem)
    ensures fresh(item) && item.Valid() && item.key == UserKeyText(k)
  {
    item := new CacheItem.NewItem(["user"]);
    Literals();
    match k
    case ById(id) => item.Attr("id", Decimal.Format(id)); JoinPair("user", "id", Decimal.Format(id));
    case ByEmail(email) => item.Attr("email", email); JoinPair("user", "email", email);
    case ByToken(token) => item.Attr("api_token", token); JoinPair("user", "api_token", token);
  }

  lemma RatePieces(route: string, name: string, text: string)
    ensures Join(["http-rate-limit"] + ["route", route] + [name, text], ':')
         == "http-rate-limit:route:" + (route + (":" + name + ":" + text))
  {
    var head := ["http-rate-limit"] + ["route", route];
    JoinPair("http-rate-limit", "route", route);
    Literals();
    assert head + [name, text] == head + [name] + [text];
    JoinSnoc(head + [name], text);
    JoinSnoc(head, name);
    RegroupRate("http-rate-limit:route:", route, ":", name, text);
  }

  lemma RegroupRate(h: string, route: string, colon: string, name: string, text: string)
    ensures h + route + colon + name + colon + text == h + (route + (colon + name + colon + text))
  {
  }

  /** The item of a rate-limit counter. */
  method RateItem(route: string, c: Client) returns (item: CacheItem)
    ensures fresh(item) && item.Valid() && item.key == RateKeyText(route, c)
  {
    item := new CacheItem.NewItem(["http-rate-limit"]);
    item.Attr("route", route);
    Literals();
    if c.User? {
      item.Attr("user_id", Decimal.Format(c.id));
      RatePieces(route, "user_id", Decimal.Format(c.id));
    } else {
      item.Attr("client_ip", c.text);
      RatePieces(route, "client_ip", c.text);
    }
  }
}
