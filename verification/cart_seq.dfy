/** The three sequence operations the cart transitions are built from:
    the first-match search (`Array.prototype.find`), removal of every line with
    an id (`filter`) and replacement of the amount of every line with an id (`map`). */
module CartSeq {
  import opened CartTypes

  /** Position of the first line carrying `id`, if any. */
  function FindIndex(cart: Cart, id: int): (r: Option<nat>)
    ensures r.None? <==> !InCart(cart, id)
    ensures r.Some? ==> r.value < |cart| && cart[r.value].id == id
    ensures r.Some? ==> forall j :: 0 <= j < r.value ==> cart[j].id != id
  {
    if cart == [] then None
    else if cart[0].id == id then Some(0)
    else
      match FindIndex(cart[1..], id)
      case None => None
      case Some(i) => Some(i + 1)
  }

  /** The first line carrying `id`, if any. */
  function Find(cart: Cart, id: int): (r: Option<Product>)
    ensures r.None? <==> !InCart(cart, id)
    ensures r.Some? ==> r.value.id == id
    ensures r.Some? ==> exists i :: 0 <= i < |cart| && r.value == cart[i] &&
                          forall j :: 0 <= j < i ==> cart[j].id != id
  {
    match FindIndex(cart, id)
    case None => None
    case Some(i) => Some(cart[i])
  }

  /** Number of lines carrying `id`. */
  function Count(cart: Cart, id: int): (r: nat)
  {
    if cart == [] then 0
    else (if cart[0].id == id then 1 else 0) + Count(cart[1..], id)
  }

  /** The cart without any line carrying `id`, other lines in their order. */
  function RemoveAll(cart: Cart, id: int): (r: Cart)
    ensures forall p :: p in r <==> p in cart && p.id != id
    ensures |r| + Count(cart, id) == |cart|
    ensures !InCart(r, id)
  {
    if cart == [] then []
    else if cart[0].id == id then RemoveAll(cart[1..], id)
    else [cart[0]] + RemoveAll(cart[1..], id)
  }

  /** The cart with the amount of every line carrying `id` set to `amount`. */
  function SetAmount(cart: Cart, id: int, amount: int): (r: Cart)
    ensures |r| == |cart|
    ensures forall i :: 0 <= i < |cart| && cart[i].id == id ==> r[i] == cart[i].(amount := amount)
    ensures forall i :: 0 <= i < |cart| && cart[i].id != id ==> r[i] == cart[i]
  {
    if cart == [] then []
    else
      var head := if cart[0].id == id then cart[0].(amount := amount) else cart[0];
      [head] + SetAmount(cart[1..], id, amount)
  }

  /** A cart with unique ids holds a present id exactly once. */
  lemma {:induction false} CountUnique(cart: Cart, id: int)
    requires UniqueIds(cart)
    ensures Count(cart, id) == if InCart(cart, id) then 1 else 0
  {
    if cart != [] {
      var tail := cart[1..];
      assert UniqueIds(tail) by {
        forall i, j | 0 <= i < j < |tail| ensures tail[i].id != tail[j].id {
          assert tail[i] == cart[i + 1] && tail[j] == cart[j + 1];
        }
      }
      CountUnique(tail, id);
      if cart[0].id == id {
        assert !InCart(tail, id) by {
          forall k | 0 <= k < |tail| ensures tail[k].id != id {
            assert tail[k] == cart[k + 1];
          }
        }
      } else {
        assert InCart(cart, id) <==> InCart(tail, id) by {
          if InCart(cart, id) {
            var k :| 0 <= k < |cart| && cart[k].id == id;
            assert tail[k - 1] == cart[k];
          }
          if InCart(tail, id) {
            var k :| 0 <= k < |tail| && tail[k].id == id;
            assert cart[k + 1] == tail[k];
          }
        }
      }
    }
  }

  /** Removal works line by line: on a concatenation it removes from each part
      and keeps the parts in order. */
  lemma {:induction false} RemoveAllAppend(a: Cart, b: Cart, id: int)
    ensures RemoveAll(a + b, id) == RemoveAll(a, id) + RemoveAll(b, id)
  {
    if a == [] {
      assert a + b == b;
    } else {
      var ab := a + b;
      assert ab[0] == a[0];
      assert ab[1..] == a[1..] + b;
      RemoveAllAppend(a[1..], b, id);
      if a[0].id == id {
        calc {
          RemoveAll(ab, id);
          RemoveAll(a[1..] + b, id);
          RemoveAll(a[1..], id) + RemoveAll(b, id);
          RemoveAll(a, id) + RemoveAll(b, id);
        }
      } else {
        calc {
          RemoveAll(ab, id);
          [a[0]] + RemoveAll(a[1..] + b, id);
          [a[0]] + (RemoveAll(a[1..], id) + RemoveAll(b, id));
          ([a[0]] + RemoveAll(a[1..], id)) + RemoveAll(b, id);
          RemoveAll(a, id) + RemoveAll(b, id);
        }
      }
    }
  }

  /** Removal of one line keeps it exactly when its id differs. */
  lemma RemoveAllSingle(p: Product, id: int)
    ensures RemoveAll([p], id) == if p.id == id then [] else [p]
  {
  }

  /** Removing an id that is not in the cart changes nothing. */
  lemma {:induction false} RemoveAllAbsent(cart: Cart, id: int)
    requires !InCart(cart, id)
    ensures RemoveAll(cart, id) == cart
  {
    if cart != [] {
      assert cart == [cart[0]] + cart[1..];
      assert !InCart(cart[1..], id) by {
        forall k | 0 <= k < |cart[1..]| ensures cart[1..][k].id != id {
          assert cart[1..][k] == cart[k + 1];
        }
      }
      RemoveAllAbsent(cart[1..], id);
    }
  }

  /** Removing lines keeps ids unique. */
  lemma {:induction false} RemoveAllUnique(cart: Cart, id: int)
    requires UniqueIds(cart)
    ensures UniqueIds(RemoveAll(cart, id))
  {
    if cart != [] {
      var tail := cart[1..];
      assert UniqueIds(tail) by {
        forall i, j | 0 <= i < j < |tail| ensures tail[i].id != tail[j].id {
          assert tail[i] == cart[i + 1] && tail[j] == cart[j + 1];
        }
      }
      RemoveAllUnique(tail, id);
      if cart[0].id != id {
        var rest := RemoveAll(tail, id);
        var r := [cart[0]] + rest;
        forall i, j | 0 <= i < j < |r| ensures r[i].id != r[j].id {
          if i == 0 {
            assert r[j] == rest[j - 1];
            HeadIdNotInTail(cart, id, j - 1);
          } else {
            assert rest[i - 1].id != rest[j - 1].id;
          }
        }
      }
    }
  }

  /** In a cart with unique ids, no line that survives removal from the tail
      shares the head's id. */
  lemma HeadIdNotInTail(cart: Cart, id: int, k: nat)
    requires UniqueIds(cart) && cart != []
    requires k < |RemoveAll(cart[1..], id)|
    ensures RemoveAll(cart[1..], id)[k].id != cart[0].id
  {
    var tail := cart[1..];
    var p := RemoveAll(tail, id)[k];
    assert p in RemoveAll(tail, id);
    var m :| 0 <= m < |tail| && tail[m] == p;
    assert tail[m] == cart[m + 1];
  }

  /** Setting amounts keeps every line's id, hence the order of ids. */
  lemma SetAmountIds(cart: Cart, id: int, amount: int)
    ensures Ids(SetAmount(cart, id, amount)) == Ids(cart)
  {
    var r := SetAmount(cart, id, amount);
    assert forall i :: 0 <= i < |cart| ==> Ids(r)[i] == Ids(cart)[i];
  }

  /** A present id is counted at least once. */
  lemma {:induction false} CountPresent(cart: Cart, id: int)
    requires InCart(cart, id)
    ensures Count(cart, id) >= 1
  {
    if cart[0].id != id {
      var k :| 0 <= k < |cart| && cart[k].id == id;
      assert cart[1..][k - 1] == cart[k];
      CountPresent(cart[1..], id);
    }
  }

  /** The first line carrying an id is the one the search returns. */
  lemma FirstMatchIsFound(cart: Cart, id: int, i: nat)
    requires i < |cart| && cart[i].id == id
    requires !InCart(cart[..i], id)
    ensures FindIndex(cart, id) == Some(i)
    ensures Find(cart, id) == Some(cart[i])
  {
    var k := FindIndex(cart, id);
    assert k.Some?;
    assert !(k.value < i) && !(i < k.value);
  }
}
