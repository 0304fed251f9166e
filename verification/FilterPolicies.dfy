/** The filter policies of the database (util/bloom.cc, db/dbformat.cc:97-117). */
module FilterPolicies {
  import opened Words
  import opened FilterBlock
  import opened TableFormat
  import Bloom

  /** BloomFilterPolicy. */
  function BloomPolicy(hash: Bloom.Hash, bitsPerKey: nat): Policy {
    var k := Bloom.ProbeCount(bitsPerKey);
    Policy(keys => Bloom.FilterOf(hash, bitsPerKey, k, keys), (key, filter) => Bloom.KeyMayMatch(hash, key, filter))
  }

  lemma BloomIsHonest(hash: Bloom.Hash, bitsPerKey: nat)
    ensures Honest(BloomPolicy(hash, bitsPerKey))
    ensures forall key :: !BloomPolicy(hash, bitsPerKey).mayMatch(key, [])
  {
    var p := BloomPolicy(hash, bitsPerKey);
    forall keys: seq<Key>, key: Key {:trigger p.mayMatch(key, p.create(keys))} | key in keys
      ensures p.mayMatch(key, p.create(keys))
    {
      Bloom.NoFalseNegative(hash, bitsPerKey, Bloom.ProbeCount(bitsPerKey), keys, key);
    }
  }

  /** Internal keys are filtered by their user keys; shorter strings are none. */
  function UserOf(k: Key): Key {
    if IsInternal(k) then UserKey(k) else []
  }

  function UsersOf(keys: seq<Key>): (users: seq<Key>)
    ensures |users| == |keys| && forall i {:trigger users[i]} :: 0 <= i < |keys| ==> users[i] == UserOf(keys[i])
  {
    seq(|keys|, i requires 0 <= i < |keys| => UserOf(keys[i]))
  }

  function InternalPolicy(user: Policy): Policy {
    Policy(keys => user.create(UsersOf(keys)), (key, filter) => user.mayMatch(UserOf(key), filter))
  }

  /** A filter lets all keys pass that have the user key of one of its keys. */
  ghost predicate HonestToUsers(p: Policy) {
    forall keys: seq<Key>, key: Key, sought: Key {:trigger p.mayMatch(sought, p.create(keys)), key in keys} ::
      key in keys && UserOf(key) == UserOf(sought) ==> p.mayMatch(sought, p.create(keys))
  }

  lemma InternalIsHonest(user: Policy)
    requires Honest(user)
    ensures HonestToUsers(InternalPolicy(user))
  {
    var p := InternalPolicy(user);
    forall keys: seq<Key>, key: Key, sought: Key {:trigger p.mayMatch(sought, p.create(keys)), key in keys} |
        key in keys && UserOf(key) == UserOf(sought)
      ensures p.mayMatch(sought, p.create(keys))
    {
      var i :| 0 <= i < |keys| && keys[i] == key;
      assert UsersOf(keys)[i] == UserOf(sought);
      assert user.mayMatch(UserOf(sought), user.create(UsersOf(keys)));
    }
  }
}
