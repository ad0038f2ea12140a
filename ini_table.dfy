/** The credentials file after parsing: named sections, each a map from key
    to value.  Text parsing and serialisation are outside the model. */
module IniTable {
  import opened Wrappers

  type Properties = map<string, string>
  type Table = map<string, Properties>

  /** `Ini::section` on a table and `Properties::get` on a section: the
      entry under a name, if present. */
  function Lookup<K, V>(m: map<K, V>, k: K): (r: Option<V>)
    ensures r.Some? <==> k in m
    ensures r.Some? ==> r.value == m[k]
  {
    if k in m then Some(m[k]) else None
  }

  /** A credentials file loaded for update; its sections are changed in
      place and then written back. */
  class Ini {
    var sections: Table

    /** The file as `Ini::load_from_file` parsed it. */
    constructor (parsed: Table)
      ensures sections == parsed
    {
      sections := parsed;
    }

    /** Whether `section_mut` finds the named section. */
    predicate HasSection(name: string)
      reads this
    {
      name in sections
    }

    /** `with_section(name).set(key, value)`: creates the section when it is
        absent, then sets one key in it. */
    method WithSectionSet(name: string, key: string, value: string)
      modifies this
      ensures name in sections
      ensures sections == old(sections)[name := SectionOrEmpty(old(sections), name)[key := value]]
    {
      sections := sections[name := SectionOrEmpty(sections, name)[key := value]];
    }

    /** `Properties::insert` on the section borrowed by `section_mut`: adds the
        key or overwrites its value, and changes nothing else. */
    method Insert(name: string, key: string, value: string)
      requires name in sections
      modifies this
      ensures sections == old(sections)[name := old(sections)[name][key := value]]
    {
      sections := sections[name := sections[name][key := value]];
    }
  }

  function SectionOrEmpty(t: Table, name: string): Properties {
    if name in t then t[name] else map[]
  }
}
