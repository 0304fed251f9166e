/**
 What a message is once any bytes have been decoded into it without an error: its items are
 values of their types, within their bounds, and its strings are terminated. So it can be
 encoded, and reads back as it is.
 */
module PbSound {
  import opened Options
  import opened Words
  import opened Coding
  import opened PbTypes
  import opened PbEncoding
  import opened PbDecoding
  import opened PbRoundTrip

  ghost predicate ItemSound(k: Kind, v: Value)
    requires GoodKind(k)
  {
    ItemTyped(k, v) && ItemFits(k, v) && ItemTerminated(k, v)
  }

  ghost predicate FieldSound(f: Field, vs: seq<Value>)
    requires GoodField(f)
  {
    FieldTyped(f, vs) && FieldFits(f, vs) && FieldTerminated(f, vs)
  }

  ghost predicate Sound(d: Descriptor, m: seq<seq<Value>>)
    requires Good(d)
  {
    Typed(d, m) && Fits(d, m) && Terminated(d, m)
  }

  /**
   What a field may hold before it has come up: a required one has defaults, where a string
   in a buffer without room for a NUL is not terminated.
   */
  ghost predicate FieldBegun(f: Field, vs: seq<Value>)
    requires GoodField(f)
    decreases f
  {
    && FieldTyped(f, vs)
    && if f.rule.Required? then ItemBegun(f.kind, vs[0]) else FieldSound(f, vs)
  }

  ghost predicate ItemBegun(k: Kind, v: Value)
    requires GoodKind(k)
    decreases k
  {
    match k
    case Submessage(desc) => v.Message? && Begun(desc, v.items)
    case _ => true
  }

  ghost predicate Begun(d: Descriptor, m: seq<seq<Value>>)
    requires Good(d)
    decreases d
  {
    && |m| == |d.fields| && OnePerGroup(d.fields, m)
    && forall i :: 0 <= i < |d.fields| ==> FieldBegun(d.fields[i], m[i])
  }

  lemma {:induction false} SoundIsBegun(d: Descriptor, m: seq<seq<Value>>)
    requires Good(d) && Sound(d, m)
    ensures Begun(d, m)
    decreases d, 1
  {
    forall i | 0 <= i < |d.fields|
      ensures FieldBegun(d.fields[i], m[i])
    {
      SoundFieldIsBegun(d.fields[i], m[i]);
    }
  }

  lemma {:induction false} SoundFieldIsBegun(f: Field, vs: seq<Value>)
    requires GoodField(f) && FieldSound(f, vs)
    ensures FieldBegun(f, vs)
    decreases f, 0
  {
    if f.rule.Required? && f.kind.Submessage? {
      assert ItemTyped(f.kind, vs[0]) && ItemFits(f.kind, vs[0]) && ItemTerminated(f.kind, vs[0]);
      SoundIsBegun(f.kind.desc, vs[0].items);
    }
  }

  lemma {:induction false} DefaultsAreBegun(d: Descriptor)
    requires Good(d)
    ensures Begun(d, Defaults(d))
    decreases d, 1
  {
    forall i | 0 <= i < |d.fields|
      ensures FieldBegun(d.fields[i], DefaultField(d.fields[i]))
    {
      DefaultFieldIsBegun(d.fields[i]);
    }
  }

  lemma {:induction false} DefaultFieldIsBegun(f: Field)
    requires GoodField(f)
    ensures FieldBegun(f, DefaultField(f))
    decreases f, 0
  {
    if f.rule.Required? {
      if f.kind.Submessage? {
        DefaultsAreBegun(f.kind.desc);
        BegunIsTyped(f.kind.desc, Defaults(f.kind.desc));
      }
      assert ItemTyped(f.kind, DefaultItem(f.kind));
    }
  }

  lemma BegunIsTyped(d: Descriptor, m: seq<seq<Value>>)
    requires Good(d) && Begun(d, m)
    ensures Typed(d, m)
  {
    forall i | 0 <= i < |d.fields|
      ensures FieldTyped(d.fields[i], m[i])
    {
      assert FieldBegun(d.fields[i], m[i]);
    }
  }

  // ---- Items

  lemma {:induction false} UpToNulHasNone(s: seq<byte>)
    ensures 0 !in UpToNul(s) && UpToNul(s) <= s
    ensures |UpToNul(s)| < |s| ==> s[|UpToNul(s)|] == 0
  {
    if s != [] && s[0] != 0 {
      UpToNulHasNone(s[1..]);
      assert s == [s[0]] + s[1..];
    }
  }

  lemma ScalarIsSound(k: Kind, s: seq<byte>)
    requires GoodKind(k) && !k.Submessage? && DecodeScalar(k, s).Some?
    ensures ItemSound(k, DecodeScalar(k, s).value.value)
  {
    hide ParseVarint64, ParseString, DecodeFixed32, DecodeFixed64, UpToNul;
    if k.Text? {
      UpToNulHasNone(ParseString(s).value.value);
    }
  }

  /** An item is decoded into one that is there, or into defaults. */
  lemma {:induction false} ItemIsSound(k: Kind, base: Value, s: seq<byte>)
    requires GoodKind(k) && DecodeItem(k, base, s).Some?
    requires k.Submessage? && base.Message? && |base.items| == |k.desc.fields| ==> Begun(k.desc, base.items)
    ensures ItemSound(k, DecodeItem(k, base, s).value.value)
    decreases k, 1
  {
    hide Begun, ParseString, DecodeScalar, DecodeMessage, Typed, Fits, Terminated;
    if k.Submessage? {
      DefaultsAreBegun(k.desc);
      var b := ParseString(s).value;
      var start := if base.Message? && |base.items| == |k.desc.fields| then base.items else Defaults(k.desc);
      AllSeenNone(k.desc, start);
      MessageIsSound(k.desc, start, {}, b.value);
    } else {
      ScalarIsSound(k, s);
    }
  }

  ghost predicate AllSound(k: Kind, vs: seq<Value>)
    requires GoodKind(k)
  {
    forall j :: 0 <= j < |vs| ==> ItemSound(k, vs[j])
  }

  lemma {:induction false} PackedAreSound(k: Kind, vs: seq<Value>, max: nat, s: seq<byte>)
    requires GoodKind(k) && !k.Submessage? && AllSound(k, vs) && |vs| <= max && DecodePacked(k, vs, max, s).Some?
    ensures AllSound(k, DecodePacked(k, vs, max, s).value) && |DecodePacked(k, vs, max, s).value| <= max
    decreases |s|
  {
    hide DecodeScalar, ItemSound;
    if s != [] {
      ScalarIsSound(k, s);
      ScalarsConsume(k, s);
      var v := DecodeScalar(k, s).value;
      PackedAreSound(k, vs + [v.value], max, v.rest);
    }
  }

  lemma SoundItems(f: Field, vs: seq<Value>)
    requires GoodField(f)
    ensures FieldSound(f, vs) <==>
              && AllSound(f.kind, vs) && (f.rule.Required? ==> |vs| == 1)
              && (f.rule.Optional? || f.rule.OneOf? ==> |vs| <= 1) && (f.rule.Repeated? ==> |vs| <= f.rule.max)
  {
  }

  lemma {:induction false} FieldIsSound(f: Field, vs: seq<Value>, wire: nat, s: seq<byte>)
    requires GoodField(f) && FieldBegun(f, vs) && DecodeField(f, vs, wire, s).Some?
    ensures FieldSound(f, DecodeField(f, vs, wire, s).value.value)
    decreases f, 0
  {
    hide DecodeItem, DecodePacked, ItemSound, ParseString;
    var r := DecodeField(f, vs, wire, s).value.value;
    SoundItems(f, r);
    SoundItems(f, vs);
    if f.rule.Repeated? && wire == WT_STRING && f.kind.Packable() {
      PackedAreSound(f.kind, vs, f.rule.max, ParseString(s).value.value);
    } else {
      if f.kind.Submessage? {
        BaseIsBegun(f, vs);
      }
      ItemIsSound(f.kind, Base(f, vs), s);
    }
  }

  lemma BaseIsBegun(f: Field, vs: seq<Value>)
    requires GoodField(f) && FieldBegun(f, vs) && f.kind.Submessage? && GoodKind(f.kind)
    ensures var b := Base(f, vs);
            b.Message? && Begun(f.kind.desc, b.items)
  {
    hide Begun;
    if (f.rule.Required? || f.rule.Optional?) && vs != [] {
      if f.rule.Optional? {
        assert ItemTyped(f.kind, vs[0]) && ItemFits(f.kind, vs[0]) && ItemTerminated(f.kind, vs[0]);
        SoundIsBegun(f.kind.desc, vs[0].items);
      }
    } else {
      DefaultsAreBegun(f.kind.desc);
    }
  }

  // ---- Messages

  /** Fields that have come up are sound, and the others as before. */
  ghost predicate SeenAreSound(d: Descriptor, m: seq<seq<Value>>, seen: set<nat>)
    requires Good(d)
  {
    && |m| == |d.fields| && OnePerGroup(d.fields, m)
    && forall i :: 0 <= i < |d.fields| ==>
        if i in seen then FieldSound(d.fields[i], m[i]) else FieldBegun(d.fields[i], m[i])
  }

  lemma AllSeenNone(d: Descriptor, m: seq<seq<Value>>)
    requires Good(d) && Begun(d, m)
    ensures SeenAreSound(d, m, {})
  {
  }

  lemma AbsentIsSound(f: Field)
    requires GoodField(f) && f.rule.OneOf?
    ensures FieldSound(f, []) && FieldBegun(f, [])
  {
  }

  lemma OneMoreIsSound(d: Descriptor, m: seq<seq<Value>>, seen: set<nat>, i: nat, vs: seq<Value>)
    requires Good(d) && SeenAreSound(d, m, seen) && i < |d.fields| && FieldSound(d.fields[i], vs)
    ensures SeenAreSound(d, WithField(d.fields, m, i, vs), seen + {i})
  {
    hide FieldSound, FieldBegun, GoodKind;
    var m' := WithField(d.fields, m, i, vs);
    forall j | 0 <= j < |d.fields|
      ensures if j in seen + {i} then FieldSound(d.fields[j], m'[j]) else FieldBegun(d.fields[j], m'[j])
    {
      if j != i && SameGroup(d.fields[i], d.fields[j]) {
        AbsentIsSound(d.fields[j]);
      }
    }
    forall j, k | 0 <= j < k < |d.fields| && SameGroup(d.fields[j], d.fields[k])
      ensures m'[j] == [] || m'[k] == []
    {
      assert SameGroup(d.fields[k], d.fields[j]);
    }
  }

  /** Any bytes that decode leave every field sound. */
  lemma {:induction false} MessageIsSound(d: Descriptor, m: seq<seq<Value>>, seen: set<nat>, s: seq<byte>)
    requires Good(d) && SeenAreSound(d, m, seen) && DecodeMessage(d, m, seen, s).Some?
    ensures Sound(d, DecodeMessage(d, m, seen, s).value)
    decreases d, 0, |s|
  {
    var t := ReadTag(s);
    if !t.Tag? {
      CompleteIsSound(d, m, seen);
    } else {
      NoBytesNoTag(s);
      var i := IndexOf(d.fields, t.tag);
      if i.None? {
        MessageIsSound(d, m, seen, Skip(t.wire, t.rest).value);
      } else {
        var f := d.fields[i.value];
        assert FieldBegun(f, m[i.value]) by {
          if i.value in seen {
            SoundFieldIsBegun(f, m[i.value]);
          }
        }
        FieldIsSound(f, m[i.value], t.wire, t.rest);
        var vs := DecodeField(f, m[i.value], t.wire, t.rest).value;
        OneMoreIsSound(d, m, seen, i.value, vs.value);
        MessageIsSound(d, WithField(d.fields, m, i.value, vs.value), seen + {i.value}, vs.rest);
      }
    }
  }

  lemma CompleteIsSound(d: Descriptor, m: seq<seq<Value>>, seen: set<nat>)
    requires Good(d) && SeenAreSound(d, m, seen) && Complete(d.fields, seen)
    ensures Sound(d, m)
  {
    forall i | 0 <= i < |d.fields|
      ensures FieldTyped(d.fields[i], m[i]) && FieldFits(d.fields[i], m[i]) && FieldTerminated(d.fields[i], m[i])
    {
      assert FieldSound(d.fields[i], m[i]);
    }
  }

  /** Whatever the bytes, a message that is decoded is typed, within bounds and terminated. */
  lemma DecodedIsSound(d: Descriptor, s: seq<byte>)
    requires Good(d) && Decode(d, s).Some?
    ensures var m := Decode(d, s).value;
            Typed(d, m) && Fits(d, m) && Terminated(d, m)
  {
    hide Begun, DecodeMessage, Typed, Fits, Terminated;
    DefaultsAreBegun(d);
    AllSeenNone(d, Defaults(d));
    MessageIsSound(d, Defaults(d), {}, s);
  }

  /** So it can be encoded again, and the bytes of that decode to the same message. */
  lemma DecodedReadsBack(d: Descriptor, s: seq<byte>)
    requires Good(d) && Decode(d, s).Some?
    ensures var m := Decode(d, s).value;
            && Typed(d, m)
            && (|MessageBytes(d, m, 0)| < SIZE_LIMIT ==> Decode(d, MessageBytes(d, m, 0)) == Some(m))
  {
    hide Decode, Typed, Fits, Terminated, MessageBytes;
    DecodedIsSound(d, s);
    if |MessageBytes(d, Decode(d, s).value, 0)| < SIZE_LIMIT {
      MessageRoundTrip(d, Decode(d, s).value);
    }
  }
}
