/**
 * The players' list text and `Player` equality. Both `getListText`
 * functions (one over user proxies and their first names, one over players
 * and their names) run the same loop; it is `ListText` here, over the names.
 * Of a user proxy and a player the model keeps only what these read.
 */
module Players {
  import opened Texts

  datatype UserProxy = UserProxy(id: int, firstName: string)

  datatype PlayerInfo = PlayerInfo(tgID: int)

  datatype Player = Player(info: PlayerInfo, name: string)

  /** "A", "A and B", "A, B and C": every name but the last joined by ", ", then " and " and the last. */
  function Listed(names: seq<string>): string
  {
    if |names| == 0 then ""
    else if |names| == 1 then names[0]
    else Join(names[..|names| - 1], ", ") + " and " + names[|names| - 1]
  }

  /**
   * The loop of `getListText(_:)`: a single name alone; otherwise ", " after
   * every name but the last two, " " after the one before last, and "and "
   * before the last.
   */
  method ListText(names: seq<string>) returns (s: string)
    ensures s == Listed(names)
  {
    s := "";
    var n := |names|;
    var index := 0;
    while index < n
      invariant 0 <= index <= n
      invariant n == 1 ==> s == (if index == 0 then "" else names[0])
      invariant index == 0 ==> s == ""
      invariant n >= 2 && 0 < index <= n - 1 ==> s == Join(names[..index], ", ") + (if index == n - 1 then " " else ", ")
      invariant n >= 2 && index == n ==> s == Listed(names)
    {
      if n == 1 {
        s := s + names[index];
      } else if index == n - 1 {
        var j := Join(names[..n - 1], ", ");
        assert s + "and " + names[index] == j + " and " + names[n - 1];
        s := s + "and " + names[index];
      } else {
        assert names[..index + 1][..index] == names[..index];
        if index == 0 {
          assert Join(names[..1], ", ") == names[0];
        }
        if index == n - 2 {
          s := s + names[index] + " ";
        } else {
          s := s + names[index] + ", ";
        }
      }
      index := index + 1;
    }
  }

  /** The first names of the user proxies, in order. */
  function FirstNames(players: seq<UserProxy>): (r: seq<string>)
    ensures |r| == |players| && forall i :: 0 <= i < |r| ==> r[i] == players[i].firstName
  {
    seq(|players|, i requires 0 <= i < |players| => players[i].firstName)
  }

  /** The names of the players, in order. */
  function PlayerNames(players: seq<Player>): (r: seq<string>)
    ensures |r| == |players| && forall i :: 0 <= i < |r| ==> r[i] == players[i].name
  {
    seq(|players|, i requires 0 <= i < |players| => players[i].name)
  }

  /** `UserProxy.getListText(_:)`: the list text of the first names. */
  method ProxyListText(players: seq<UserProxy>) returns (s: string)
    ensures s == Listed(FirstNames(players))
  {
    s := ListText(FirstNames(players));
  }

  /** `Player.getListText(_:)`: the list text of the names. */
  method PlayerListText(players: seq<Player>) returns (s: string)
    ensures s == Listed(PlayerNames(players))
  {
    s := ListText(PlayerNames(players));
  }

  /** `==` on players: the same Telegram ID, whatever the names. */
  predicate PlayerEqual(lhs: Player, rhs: Player): (r: bool)
    ensures r <==> lhs.info.tgID == rhs.info.tgID
  {
    lhs.info.tgID == rhs.info.tgID
  }

  // ----- properties -----

  /** No names give no text, one name gives that name, and two give "A and B". */
  lemma ListedShort(a: string, b: string)
    ensures Listed([]) == "" && Listed([a]) == a
    ensures Listed([a, b]) == a + " and " + b
  {
    assert [a, b][..1] == [a];
  }

  /** Three names give "A, B and C". */
  lemma ListedThree(a: string, b: string, c: string)
    ensures Listed([a, b, c]) == a + ", " + b + " and " + c
  {
    assert [a, b, c][..2] == [a, b];
    assert [a, b][..1] == [a];
    assert Join([a, b], ", ") == a + ", " + b;
  }

  /** Where name `i` starts in the list text. */
  function Position(names: seq<string>, i: nat): nat
    requires i < |names|
  {
    if i < |names| - 1 then Lengths(names[..i]) + 2 * i
    else Lengths(names[..i]) + 2 * (i - 1) + 5
  }

  /** Every name appears in the list text, at its position. */
  lemma NameAppears(names: seq<string>, i: nat)
    requires 2 <= |names| && i < |names|
    ensures OccursAt(names[i], Listed(names), Position(names, i))
  {
    var n := |names|;
    var front := names[..n - 1];
    var j := Join(front, ", ");
    var t := j + " and " + names[n - 1];
    assert Listed(names) == t;
    var p := Position(names, i);
    if i < n - 1 {
      JoinPlacement(front, ", ", i);
      assert front[..i] == names[..i] && front[i] == names[i];
      assert p == Lengths(front[..i]) + i * |", "|;
      assert OccursAt(front[i], j, p);
      assert t[p..p + |names[i]|] == j[p..p + |names[i]|];
    } else {
      JoinLength(front, ", ");
      assert names[..i] == front;
      assert p == |j| + 5;
      assert t[p..] == names[n - 1];
    }
  }

  /** The names appear in the order given: each ends before the next one starts. */
  lemma NamesInOrder(names: seq<string>, i: nat)
    requires i + 1 < |names|
    ensures Position(names, i) + |names[i]| < Position(names, i + 1)
  {
    assert names[..i + 1][..i] == names[..i];
    assert Lengths(names[..i + 1]) == Lengths(names[..i]) + |names[i]|;
  }

  /** `==` on players is an equivalence and ignores the name. */
  lemma PlayerEqualIsEquivalence(a: Player, b: Player, c: Player, name: string)
    ensures PlayerEqual(a, a) && PlayerEqual(a, a.(name := name))
    ensures PlayerEqual(a, b) ==> PlayerEqual(b, a)
    ensures PlayerEqual(a, b) && PlayerEqual(b, c) ==> PlayerEqual(a, c)
  {
  }
}
