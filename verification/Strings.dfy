/** Lists joined by semicolons: the parameters of control sequences and the properties of style attributes. */
module Strings {

  function Join(ps: seq<string>): string
    requires ps != []
  {
    if |ps| == 1 then ps[0] else ps[0] + [';'] + Join(ps[1..])
  }

  /** Semicolons stand between the parts, and nowhere else. */
  lemma JoinMeans(p: string, ps: seq<string>)
    ensures Join([p]) == p
    ensures ps != [] ==> Join([p] + ps) == p + ";" + Join(ps)
  {
    assert ([p] + ps)[1..] == ps;
  }

  lemma {:induction false} JoinSnoc(ps: seq<string>, p: string)
    requires ps != []
    ensures Join(ps + [p]) == Join(ps) + [';'] + p
  {
    if |ps| > 1 {
      assert (ps + [p])[1..] == ps[1..] + [p];
      JoinSnoc(ps[1..], p);
    } else {
      assert (ps + [p])[1..] == [p];
    }
  }
}
