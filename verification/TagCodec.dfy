/** Tags as stored text (packages/eventstore/src/TagCodec.ts): `key=value`, the key encoded so that the first `=` is the
    separator. */
module TagCodec {
  import opened Events
  import opened Text

  function ReplaceAll(s: string, c: char, code: string): string {
    if s == "" then "" else (if s[0] == c then code else [s[0]]) + ReplaceAll(s[1..], c, code)
  }

  function EncodeKey(key: string): string {
    ReplaceAll(ReplaceAll(key, '%', "%25"), '=', "%3D")
  }

  predicate StartsWith(s: string, prefix: string) {
    |prefix| <= |s| && s[..|prefix|] == prefix
  }

  /** Only `%25` and `%3D`, from the left; any other `%` is kept. */
  function DecodeKey(encoded: string): string {
    if encoded == "" then ""
    else if StartsWith(encoded, "%25") then "%" + DecodeKey(encoded[3..])
    else if StartsWith(encoded, "%3D") then "=" + DecodeKey(encoded[3..])
    else [encoded[0]] + DecodeKey(encoded[1..])
  }

  function Encode(tag: Tag): string {
    EncodeKey(tag.key) + "=" + tag.value
  }

  /** A text with no `=` is a key with an empty value. */
  function Decode(stored: string): Tag {
    var i := IndexOf(stored, '=');
    if i == |stored| then Tag(DecodeKey(stored), "") else Tag(DecodeKey(stored[..i]), stored[i + 1..])
  }

  function EncodeChar(c: char): string {
    if c == '%' then "%25" else if c == '=' then "%3D" else [c]
  }

  lemma {:induction false} ReplaceAllConcat(s: string, t: string, c: char, code: string)
    ensures ReplaceAll(s + t, c, code) == ReplaceAll(s, c, code) + ReplaceAll(t, c, code)
  {
    if s == "" {
      assert s + t == t;
    } else {
      assert (s + t)[1..] == s[1..] + t;
      ReplaceAllConcat(s[1..], t, c, code);
    }
  }

  lemma EncodeKeyFirst(key: string)
    requires key != ""
    ensures EncodeKey(key) == EncodeChar(key[0]) + EncodeKey(key[1..])
  {
    var first := if key[0] == '%' then "%25" else [key[0]];
    ReplaceAllConcat(first, ReplaceAll(key[1..], '%', "%25"), '=', "%3D");
    assert first[1..] == if key[0] == '%' then "25" else "";
    assert key[0] == '%' ==> first[1..][1..] == "5" && first[1..][1..][1..] == "";
  }

  lemma {:induction false} EncodedKeyHoldsNoSeparator(key: string)
    ensures '=' !in EncodeKey(key)
  {
    if key != "" {
      EncodedKeyHoldsNoSeparator(key[1..]);
      EncodeKeyFirst(key);
    }
  }

  lemma {:induction false} KeyRoundTrip(key: string)
    ensures DecodeKey(EncodeKey(key)) == key
  {
    if key != "" {
      EncodeKeyFirst(key);
      KeyRoundTrip(key[1..]);
      var rest := EncodeKey(key[1..]);
      assert EncodeKey(key)[|EncodeChar(key[0])|..] == rest;
      assert key == [key[0]] + key[1..];
    }
  }

  /** Any key and any value come back unchanged. */
  lemma RoundTrip(tag: Tag)
    ensures Decode(Encode(tag)) == tag
  {
    EncodedKeyHoldsNoSeparator(tag.key);
    KeyRoundTrip(tag.key);
    IndexOfFirst(EncodeKey(tag.key), tag.value, '=');
    assert Encode(tag) == EncodeKey(tag.key) + ['='] + tag.value;
    assert Encode(tag)[..|EncodeKey(tag.key)|] == EncodeKey(tag.key);
    assert Encode(tag)[|EncodeKey(tag.key)| + 1..] == tag.value;
  }

  /** In the text, the value stands as it is after the first `=`, and the encoded key before it. */
  lemma KeyComesFirst(tag: Tag)
    ensures var text := Encode(tag);
            var i := IndexOf(text, '=');
            i < |text| && text[i + 1..] == tag.value && DecodeKey(text[..i]) == tag.key
  {
    EncodedKeyHoldsNoSeparator(tag.key);
    KeyRoundTrip(tag.key);
    IndexOfFirst(EncodeKey(tag.key), tag.value, '=');
    assert Encode(tag) == EncodeKey(tag.key) + ['='] + tag.value;
    assert Encode(tag)[..|EncodeKey(tag.key)|] == EncodeKey(tag.key);
  }

  function EncodeAll(tags: seq<Tag>): (texts: seq<string>)
    ensures |texts| == |tags| && forall i :: 0 <= i < |tags| ==> texts[i] == Encode(tags[i])
  {
    seq(|tags|, i requires 0 <= i < |tags| => Encode(tags[i]))
  }

  /** So the store, which compares texts, compares tags: containment of the stored texts is containment of the tags. */
  lemma ContainmentOfTexts(wanted: seq<Tag>, held: seq<Tag>)
    ensures (forall t :: t in EncodeAll(wanted) ==> t in EncodeAll(held)) <==> (forall t :: t in wanted ==> t in held)
  {
    if forall t :: t in EncodeAll(wanted) ==> t in EncodeAll(held) {
      forall t | t in wanted ensures t in held {
        var i :| 0 <= i < |wanted| && wanted[i] == t;
        assert EncodeAll(wanted)[i] in EncodeAll(held);
        var j :| 0 <= j < |held| && EncodeAll(held)[j] == EncodeAll(wanted)[i];
        RoundTrip(t);
        RoundTrip(held[j]);
      }
    }
    if forall t :: t in wanted ==> t in held {
      forall text | text in EncodeAll(wanted) ensures text in EncodeAll(held) {
        var i :| 0 <= i < |wanted| && EncodeAll(wanted)[i] == text;
        assert wanted[i] in wanted;
        var j :| 0 <= j < |held| && held[j] == wanted[i];
        assert EncodeAll(held)[j] == text;
      }
    }
  }

  /** A key text this codec writes: no `=`, and every `%` begins `%25` or `%3D`. */
  predicate IsKeyText(s: string) {
    if s == "" then true
    else if s[0] == '%' then (StartsWith(s, "%25") || StartsWith(s, "%3D")) && IsKeyText(s[3..])
    else s[0] != '=' && IsKeyText(s[1..])
  }

  /** A stored key read back and written again is the same text exactly when this codec could have written it. */
  lemma {:induction false} KeyTextsSurvive(s: string)
    ensures EncodeKey(DecodeKey(s)) == s <==> IsKeyText(s)
    ensures |EncodeKey(DecodeKey(s))| >= |s|
  {
    if s != "" {
      var n := if StartsWith(s, "%25") || StartsWith(s, "%3D") then 3 else 1;
      KeyTextsSurvive(s[n..]);
      var key := DecodeKey(s);
      assert key[1..] == DecodeKey(s[n..]);
      EncodeKeyFirst(key);
      HeadSurvives(s, EncodeChar(key[0]), EncodeKey(key[1..]), n);
    }
  }

  /** A head that is the text's own, or one character written as three. */
  lemma HeadSurvives(s: string, head: string, tail: string, n: nat)
    requires n <= |s| && |tail| >= |s| - n && (head == s[..n] || (|head| == 3 && n == 1))
    ensures |head + tail| >= |s|
    ensures head + tail == s <==> head == s[..n] && tail == s[n..]
  {
    assert s == s[..n] + s[n..];
    if head == s[..n] {
      assert (head + tail)[n..] == tail;
    }
  }
}
