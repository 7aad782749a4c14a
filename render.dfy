/** The three text renderers of the component generator: the component
    module (`<name>.tsx`), the CSS module (`<name>.module.css`) and the test
    file (`<name>.test.tsx`). Each is a pure function of its inputs. A
    template literal is written as the list of its lines, each of which the
    literal ends with a newline. */
module Render {
  import opened Text

  /** The hooks import line: the whole line when hooks are wanted, else empty. */
  function HooksImport(useHooks: bool): (r: string)
    ensures r != "" <==> useHooks
  {
    if useHooks then "import { useState } from 'react';" else ""
  }

  /** The CSS-module import line: the whole line when a CSS module is wanted, else empty. */
  function CssImport(name: string, useCSSModule: bool): (r: string)
    ensures r != "" <==> useCSSModule
  {
    if useCSSModule then "import styles from './" + name + ".module.css';" else ""
  }

  /** The state declaration inside the component, present only with hooks. */
  function StateDeclaration(useHooks: bool): (r: string)
    ensures r != "" <==> useHooks
  {
    if useHooks then "const [state, setState] = " + "useState<string>(\"\");" else ""
  }

  /** The attribute of the root `<div>`, present only with a CSS module. */
  function ClassNameAttribute(useCSSModule: bool): (r: string)
    ensures r != "" <==> useCSSModule
  {
    if useCSSModule then " className={styles.container}" else ""
  }

  /** The comment the template puts in the props interface when the prop
      list is empty (falsy). */
  const Placeholder := "// Define your props here"

  /** `props.split(",").map(p => p.trim()).map(p => p + ";")`: one entry per
      comma-separated piece of `props`, trimmed and terminated. */
  function PropEntries(props: string): (r: seq<string>)
    ensures |r| == Occurrences(props, ',') + 1
  {
    Terminated(Split(props, ','))
  }

  /** `.map(p => p.trim()).map(p => p + ";")`. */
  function Terminated(pieces: seq<string>): (r: seq<string>)
    ensures |r| == |pieces|
  {
    seq(|pieces|, i requires 0 <= i < |pieces| => Trim(pieces[i]) + ";")
  }

  /** The entries joined with a newline and one space. */
  function PropTypes(props: string): string {
    Join(PropEntries(props), "\n ")
  }

  /** `propTypes || "// Define your props here"`: JavaScript's `||` on
      strings, which falls back only on the empty string. */
  function PropBlock(propTypes: string): string {
    if propTypes != "" then propTypes else Placeholder
  }

  /** The lines of the component template literal before the prop line:
      the imports and the opening of the props interface. */
  function ComponentHead(name: string, hooks: string, cssImport: string): (t: seq<string>)
    ensures |t| == 5
  {
    [ "import React from 'react';",
      hooks,
      cssImport,
      "",
      "interface " + name + "Props {" ]
  }

  /** The lines of the component template literal after the prop line: the
      end of the interface, the component and its default export. */
  function ComponentBody(name: string, state: string, classAttribute: string): (t: seq<string>)
    ensures |t| == 13
  {
    [ "}",
      "",
      "const " + name + ": React.FC<" + name + "Props> = () => {",
      "  " + state,
      "",
      "  return (",
      "    <div" + classAttribute + ">",
      "      <h1>" + name + " Component</h1>",
      "    </div>",
      "  );",
      "};",
      "",
      "export default " + name + ";" ]
  }

  /** The lines of the component template literal, in order. The prop line
      holds one entry per prop, so it spans several lines of the output
      when there are several props. */
  function ComponentTemplate(name: string, hooks: string, cssImport: string, propBlock: string,
                             state: string, classAttribute: string): (t: seq<string>)
    ensures |t| == 19
  {
    ComponentHead(name, hooks, cssImport) + ["  " + propBlock] + ComponentBody(name, state, classAttribute)
  }

  /** generateComponentContent: the text of `<name>.tsx`. It always opens
      with the React import and always closes with the default export. */
  function GenerateComponentContent(name: string, useHooks: bool, useCSSModule: bool, props: string): (r: string)
    ensures IsPrefix("import React from 'react';\n", r)
    ensures IsSuffix("export default " + name + ";\n", r)
  {
    TemplateEnds(name, HooksImport(useHooks), CssImport(name, useCSSModule),
      PropBlock(PropTypes(props)), StateDeclaration(useHooks), ClassNameAttribute(useCSSModule));
    Unlines(ComponentTemplate(name, HooksImport(useHooks), CssImport(name, useCSSModule),
      PropBlock(PropTypes(props)), StateDeclaration(useHooks), ClassNameAttribute(useCSSModule)))
  }

  lemma TemplateEnds(name: string, hooks: string, cssImport: string, propBlock: string,
                     state: string, classAttribute: string)
    ensures var r := Unlines(ComponentTemplate(name, hooks, cssImport, propBlock, state, classAttribute));
      IsPrefix("import React from 'react';\n", r) && IsSuffix("export default " + name + ";\n", r)
  {
    var t := ComponentTemplate(name, hooks, cssImport, propBlock, state, classAttribute);
    UnlinesEnds(t);
    assert t[0] == "import React from 'react';" && t[18] == "export default " + name + ";";
    assert "import React from 'react';" + "\n" == "import React from 'react';\n";
    assert "export default " + name + ";" + "\n" == "export default " + name + ";\n";
  }

  /** generateCSSContent: the text of `<name>.module.css`, the same for every
      component, a rule for the `container` class with a placeholder comment. */
  function GenerateCSSContent(): (r: string)
    ensures IsPrefix(".container {\n", r)
    ensures IsSuffix("}\n", r)
  {
    var lines := [".container {", "  /* Add your styles here */", "}"];
    UnlinesEnds(lines);
    Unlines(lines)
  }

  /** The lines of the test template literal, in order. */
  function TestTemplate(name: string): (t: seq<string>)
    ensures |t| == 10
  {
    [ "import React from 'react';",
      "import { render, screen } from '@testing-library/react';",
      "import " + name + " from './" + name + "';",
      "",
      "describe('" + name + "', () => {",
      "  it('renders without crashing', () => {",
      "    render(<" + name + " />);",
      "    expect(screen.getByText('" + name + " Component')" + ").toBeInTheDocument();",
      "  });",
      "});" ]
  }

  /** generateTestContent: the text of `<name>.test.tsx`. */
  function GenerateTestContent(name: string): (r: string)
    ensures IsPrefix("import React from 'react';\n", r)
    ensures IsSuffix("});\n", r)
  {
    var lines := TestTemplate(name);
    UnlinesEnds(lines);
    Unlines(lines)
  }

  // ---------------------------------------------------------------------
  // The prop list

  /** Whatever way `props` is written as comma-free fields joined by commas,
      the entries are those fields, in the same order and with duplicates
      kept, each trimmed and followed by a semicolon. */
  lemma PropEntriesOfFields(props: string, fields: seq<string>)
    requires |fields| >= 1
    requires forall i | 0 <= i < |fields| :: ',' !in fields[i]
    requires Join(fields, ",") == props
    ensures |PropEntries(props)| == |fields|
    ensures forall i | 0 <= i < |fields| :: PropEntries(props)[i] == Trim(fields[i]) + ";"
  {
    SplitJoin(fields, ',');
  }

  /** The entries are the pieces of `props` between commas, trimmed: joining
      the untrimmed pieces back with commas gives `props`. */
  lemma PropEntriesCoverInput(props: string)
    ensures var pieces := Split(props, ',');
      && Join(pieces, ",") == props
      && |PropEntries(props)| == |pieces|
      && forall i | 0 <= i < |pieces| :: PropEntries(props)[i] == Trim(pieces[i]) + ";"
  {
    JoinSplit(props, ',');
  }

  /** Mapping over one more piece gives one more entry. */
  lemma TerminatedSnoc(pieces: seq<string>, piece: string)
    ensures Terminated(pieces + [piece]) == Terminated(pieces) + [Trim(piece) + ";"]
  {
    var longer, shorter := Terminated(pieces + [piece]), Terminated(pieces) + [Trim(piece) + ";"];
    forall i | 0 <= i < |longer| ensures longer[i] == shorter[i] {
      if i < |pieces| { assert (pieces + [piece])[i] == pieces[i]; }
    }
  }

  /** A trailing comma adds one entry made of the terminator alone. */
  lemma TrailingComma(props: string)
    ensures PropEntries(props + ",") == PropEntries(props) + [";"]
  {
    calc {
      PropEntries(props + ",");
      { assert props + "," == props + [','] + ""; }
      Terminated(Split(props + [','] + "", ','));
      { SplitAround(props, "", ','); assert Split("", ',') == [""]; }
      Terminated(Split(props, ',') + [""]);
      { TerminatedSnoc(Split(props, ','), ""); assert Trim("") == ""; assert [] + ";" == ";"; }
      PropEntries(props) + [";"];
    }
  }

  /** An empty answer still gives one entry: the lone terminator. */
  lemma EmptyProps()
    ensures PropEntries("") == [";"]
    ensures PropTypes("") == ";"
  {
    assert Split("", ',') == [""];
    assert Trim("") == "";
    assert PropEntries("")[0] == ";";
  }

  /** A join of parts whose last part ends with `c` ends with `c`. */
  lemma {:induction false} JoinEndsWith(parts: seq<string>, sep: string, c: char)
    requires |parts| >= 1
    requires var last := parts[|parts| - 1]; |last| >= 1 && last[|last| - 1] == c
    ensures var j := Join(parts, sep); |j| >= 1 && j[|j| - 1] == c
  {
    if |parts| > 1 {
      JoinEndsWith(parts[1..], sep, c);
      var j, rest := Join(parts, sep), Join(parts[1..], sep);
      assert j == parts[0] + sep + rest;
      assert j[|j| - 1] == rest[|rest| - 1];
    }
  }

  /** Every entry ends with the terminator. */
  lemma EntriesTerminated(props: string)
    ensures forall i | 0 <= i < |PropEntries(props)| ::
      |PropEntries(props)[i]| >= 1 && PropEntries(props)[i][|PropEntries(props)[i]| - 1] == ';'
  {
  }

  /** The joined prop types always end with a semicolon. */
  lemma PropTypesTerminated(props: string)
    ensures var p := PropTypes(props); |p| >= 1 && p[|p| - 1] == ';'
  {
    EntriesTerminated(props);
    JoinEndsWith(PropEntries(props), "\n ", ';');
  }

  /** The prop types are never the empty string, so `||` never falls back
      and the placeholder comment is never rendered. */
  lemma PlaceholderUnreachable(props: string)
    ensures PropBlock(PropTypes(props)) == PropTypes(props)
  {
    PropTypesTerminated(props);
  }

  // ---------------------------------------------------------------------
  // The layout of the component text

  /** A piece of a split holds only characters of the split text. */
  lemma {:induction false} SplitKeepsCharacters(s: string, sep: char, c: char)
    requires c !in s
    ensures forall i | 0 <= i < |Split(s, sep)| :: c !in Split(s, sep)[i]
  {
    if s != [] {
      SplitKeepsCharacters(s[1..], sep, c);
    }
  }

  /** Entries of a newline-free answer are newline-free. */
  lemma EntriesOnOneLine(props: string)
    requires '\n' !in props
    ensures NoNewlines(PropEntries(props))
  {
    var pieces := Split(props, ',');
    SplitKeepsCharacters(props, ',', '\n');
    forall i | 0 <= i < |pieces| ensures '\n' !in Trim(pieces[i]) + ";" {
      TrimKeepsCharacters(pieces[i], '\n');
    }
  }

  /** The output lines of the prop block: the first entry indented by the
      template's two spaces, every later one by the single space of the join
      separator. */
  function PropLines(entries: seq<string>): (r: seq<string>)
    requires |entries| >= 1
    ensures |r| == |entries|
  {
    ["  " + entries[0]] + Indented(entries[1..])
  }

  /** Each entry after the first, behind the space of the join separator. */
  function Indented(entries: seq<string>): (r: seq<string>)
    ensures |r| == |entries|
  {
    seq(|entries|, i requires 0 <= i < |entries| => " " + entries[i])
  }

  /** Joined with a newline and a space, newline-free entries come out one
      per line, the first behind `indent`, the others behind a space. */
  lemma {:induction false} LinesOfJoin(indent: string, entries: seq<string>)
    requires |entries| >= 1 && '\n' !in indent && NoNewlines(entries)
    ensures Lines(indent + Join(entries, "\n ")) == [indent + entries[0]] + Indented(entries[1..])
    decreases |entries|
  {
    var first := indent + entries[0];
    if |entries| == 1 {
      SplitFree(first, '\n');
    } else {
      var rest := entries[1..];
      var more := " " + Join(rest, "\n ");
      calc {
        Lines(indent + Join(entries, "\n "));
        { assert indent + Join(entries, "\n ") == first + ['\n'] + more; }
        Split(first + ['\n'] + more, '\n');
        { SplitAround(first, more, '\n'); SplitFree(first, '\n'); }
        [first] + Lines(more);
        { assert NoNewlines(rest);
          LinesOfJoin(" ", rest); }
        [first] + ([" " + rest[0]] + Indented(rest[1..]));
        { assert [" " + rest[0]] + Indented(rest[1..]) == Indented(rest); }
        [first] + Indented(rest);
      }
    }
  }

  /** The template lines around the prop line are single lines when the
      interpolated pieces are. */
  lemma HeadOnOneLine(name: string, hooks: string, cssImport: string)
    requires '\n' !in name && '\n' !in hooks && '\n' !in cssImport
    ensures NoNewlines(ComponentHead(name, hooks, cssImport))
  {
    assert '\n' !in "import React from 'react';";
    assert '\n' !in "interface " + name + "Props {";
  }

  lemma BodyOnOneLine(name: string, state: string, classAttribute: string)
    requires '\n' !in name && '\n' !in state && '\n' !in classAttribute
    ensures NoNewlines(ComponentBody(name, state, classAttribute))
  {
    BodyDeclarationsOnOneLine(name, state);
    BodyMarkupOnOneLine(name, classAttribute);
  }

  lemma BodyDeclarationsOnOneLine(name: string, state: string)
    requires '\n' !in name && '\n' !in state
    ensures '\n' !in "const " + name + ": React.FC<" + name + "Props> = () => {"
    ensures '\n' !in "  " + state && '\n' !in "export default " + name + ";"
    ensures '\n' !in "}" && '\n' !in "" && '\n' !in "};"
  {
  }

  lemma BodyMarkupOnOneLine(name: string, classAttribute: string)
    requires '\n' !in name && '\n' !in classAttribute
    ensures '\n' !in "  return (" && '\n' !in "    <div" + classAttribute + ">"
    ensures '\n' !in "      <h1>" + name + " Component</h1>"
    ensures '\n' !in "    </div>" && '\n' !in "  );"
  {
  }

  /** The output lines of the component template for any one-line pieces:
      every template line is one output line, except the prop line, which
      contributes the lines of its own text; the text ends with a newline,
      hence the empty last line. */
  lemma TemplateLines(name: string, hooks: string, cssImport: string, propBlock: string,
                      state: string, classAttribute: string)
    requires '\n' !in name && '\n' !in hooks && '\n' !in cssImport
    requires '\n' !in state && '\n' !in classAttribute
    ensures Lines(Unlines(ComponentTemplate(name, hooks, cssImport, propBlock, state, classAttribute)))
      == ComponentHead(name, hooks, cssImport) + Lines("  " + propBlock) + ComponentBody(name, state, classAttribute) + [""]
  {
    HeadOnOneLine(name, hooks, cssImport);
    BodyOnOneLine(name, state, classAttribute);
    LinesAround(ComponentHead(name, hooks, cssImport), "  " + propBlock, ComponentBody(name, state, classAttribute));
  }

  /** The interpolated pieces hold no newline when the name does not. */
  lemma PiecesOnOneLine(name: string, useHooks: bool, useCSSModule: bool)
    requires '\n' !in name
    ensures '\n' !in HooksImport(useHooks) && '\n' !in CssImport(name, useCSSModule)
    ensures '\n' !in StateDeclaration(useHooks) && '\n' !in ClassNameAttribute(useCSSModule)
  {
    HooksOnOneLine(useHooks);
    CssImportOnOneLine(name, useCSSModule);
    ClassNameOnOneLine(useCSSModule);
  }

  lemma HooksOnOneLine(useHooks: bool)
    ensures '\n' !in HooksImport(useHooks)
    ensures '\n' !in StateDeclaration(useHooks)
  {
    if useHooks {
      assert '\n' !in HooksImport(useHooks);
    }
  }

  lemma CssImportOnOneLine(name: string, useCSSModule: bool)
    requires '\n' !in name
    ensures '\n' !in CssImport(name, useCSSModule)
  {
  }

  lemma ClassNameOnOneLine(useCSSModule: bool)
    ensures '\n' !in ClassNameAttribute(useCSSModule)
  {
  }

  /** With a name and an answer on one line each (as the prompt delivers
      them), the output lines of the component: the template lines, with the
      prop line replaced by one line per prop entry. */
  lemma ComponentLines(name: string, useHooks: bool, useCSSModule: bool, props: string)
    requires '\n' !in name && '\n' !in props
    ensures Lines(GenerateComponentContent(name, useHooks, useCSSModule, props))
      == ComponentHead(name, HooksImport(useHooks), CssImport(name, useCSSModule))
       + PropLines(PropEntries(props))
       + ComponentBody(name, StateDeclaration(useHooks), ClassNameAttribute(useCSSModule))
       + [""]
  {
    var h, c := HooksImport(useHooks), CssImport(name, useCSSModule);
    var st, a := StateDeclaration(useHooks), ClassNameAttribute(useCSSModule);
    var entries := PropEntries(props);
    var j := Join(entries, "\n ");
    calc {
      Lines(GenerateComponentContent(name, useHooks, useCSSModule, props));
      { PlaceholderUnreachable(props); }
      Lines(Unlines(ComponentTemplate(name, h, c, j, st, a)));
      { PiecesOnOneLine(name, useHooks, useCSSModule);
        TemplateLines(name, h, c, j, st, a); }
      ComponentHead(name, h, c) + Lines("  " + j) + ComponentBody(name, st, a) + [""];
      { EntriesOnOneLine(props);
        LinesOfJoin("  ", entries); }
      ComponentHead(name, h, c) + PropLines(entries) + ComponentBody(name, st, a) + [""];
    }
  }

  /** The prop lines of the component, for a one-line name and answer: one
      line per entry, in order, the first indented by two spaces and the
      others by one. */
  lemma ComponentPropLines(name: string, useHooks: bool, useCSSModule: bool, props: string)
    requires '\n' !in name && '\n' !in props
    ensures var lines := Lines(GenerateComponentContent(name, useHooks, useCSSModule, props));
      var entries := PropEntries(props);
      && |lines| == 19 + |entries|
      && lines[5] == "  " + entries[0]
      && forall j | 1 <= j < |entries| :: lines[5 + j] == " " + entries[j]
  {
    ComponentLines(name, useHooks, useCSSModule, props);
    PropLinesAt(Lines(GenerateComponentContent(name, useHooks, useCSSModule, props)),
      ComponentHead(name, HooksImport(useHooks), CssImport(name, useCSSModule)), PropEntries(props),
      ComponentBody(name, StateDeclaration(useHooks), ClassNameAttribute(useCSSModule)));
  }

  lemma PropLinesAt(lines: seq<string>, head: seq<string>, entries: seq<string>, body: seq<string>)
    requires |head| == 5 && |body| == 13 && |entries| >= 1
    requires lines == head + PropLines(entries) + body + [""]
    ensures |lines| == 19 + |entries|
    ensures lines[5] == "  " + entries[0]
    ensures forall j | 1 <= j < |entries| :: lines[5 + j] == " " + entries[j]
  {
    LinesAt(lines, head, PropLines(entries), body);
    forall j | 1 <= j < |entries| ensures lines[5 + j] == " " + entries[j] {
      assert lines[5 + j] == PropLines(entries)[j];
    }
  }

  /** Each import agrees with its use: the hooks import line is present
      exactly when the state declaration is, and the CSS import line exactly
      when the root element carries the class attribute; each is present
      exactly when its option is chosen. */
  lemma ImportsAgreeWithUses(name: string, useHooks: bool, useCSSModule: bool, props: string)
    requires '\n' !in name && '\n' !in props
    ensures var lines := Lines(GenerateComponentContent(name, useHooks, useCSSModule, props));
      var k := |PropEntries(props)|;
      && |lines| == 19 + k
      && (lines[1] != "" <==> useHooks)
      && (lines[8 + k] != "  " <==> useHooks)
      && (lines[2] != "" <==> useCSSModule)
      && (lines[11 + k] != "    <div>" <==> useCSSModule)
  {
    ComponentLines(name, useHooks, useCSSModule, props);
    UsesAgree(Lines(GenerateComponentContent(name, useHooks, useCSSModule, props)),
      PropLines(PropEntries(props)), name, useHooks, useCSSModule);
  }

  lemma UsesAgree(lines: seq<string>, middle: seq<string>, name: string, useHooks: bool, useCSSModule: bool)
    requires lines == ComponentHead(name, HooksImport(useHooks), CssImport(name, useCSSModule)) + middle
      + ComponentBody(name, StateDeclaration(useHooks), ClassNameAttribute(useCSSModule)) + [""]
    ensures var k := |middle|;
      && |lines| == 19 + k
      && (lines[1] != "" <==> useHooks)
      && (lines[8 + k] != "  " <==> useHooks)
      && (lines[2] != "" <==> useCSSModule)
      && (lines[11 + k] != "    <div>" <==> useCSSModule)
  {
    var head := ComponentHead(name, HooksImport(useHooks), CssImport(name, useCSSModule));
    var body := ComponentBody(name, StateDeclaration(useHooks), ClassNameAttribute(useCSSModule));
    LinesAt(lines, head, middle, body);
    var k := |middle|;
    assert lines[1] == head[1] == HooksImport(useHooks);
    assert lines[2] == head[2] == CssImport(name, useCSSModule);
    assert lines[|head| + k + 3] == body[3] == "  " + StateDeclaration(useHooks);
    assert lines[|head| + k + 6] == body[6] == "    <div" + ClassNameAttribute(useCSSModule) + ">";
    if useHooks {
      assert |lines[8 + k]| > 2;
    } else {
      assert lines[8 + k] == "  " + "";
    }
    if useCSSModule {
      assert |lines[11 + k]| > 9;
    } else {
      assert lines[11 + k] == "    <div" + "" + ">" == "    <div>";
    }
  }

  /** Each line of the template occurs in its text. */
  lemma TemplateHasLine(t: seq<string>, k: nat, before: string, t': string, after: string)
    requires k < |t| && t[k] == before + t' + after
    ensures Contains(Unlines(t), t')
  {
    ContainsMiddle(before, t', after);
    ContainsLine(t, k, t');
  }

  /** Whatever the inputs, the component text declares the props interface
      and the component under the given name and renders its heading. */
  lemma ComponentAlwaysDeclares(name: string, useHooks: bool, useCSSModule: bool, props: string)
    ensures var r := GenerateComponentContent(name, useHooks, useCSSModule, props);
      && Contains(r, "interface " + name + "Props {")
      && Contains(r, "const " + name + ": React.FC<" + name + "Props> = () => {")
      && Contains(r, "<h1>" + name + " Component</h1>")
  {
    TemplateDeclares(name, HooksImport(useHooks), CssImport(name, useCSSModule),
      PropBlock(PropTypes(props)), StateDeclaration(useHooks), ClassNameAttribute(useCSSModule));
  }

  /** The fixed lines of the template declare the interface and the
      component and hold the heading, whatever fills its slots. */
  lemma TemplateDeclares(name: string, hooks: string, cssImport: string, propBlock: string,
                         state: string, classAttribute: string)
    ensures var r := Unlines(ComponentTemplate(name, hooks, cssImport, propBlock, state, classAttribute));
      && Contains(r, "interface " + name + "Props {")
      && Contains(r, "const " + name + ": React.FC<" + name + "Props> = () => {")
      && Contains(r, "<h1>" + name + " Component</h1>")
  {
    var t := ComponentTemplate(name, hooks, cssImport, propBlock, state, classAttribute);
    TemplateHasLine(t, 4, [], t[4], []);
    TemplateHasLine(t, 8, [], t[8], []);
    assert "      <h1>" == "      " + "<h1>";
    assert t[13] == "      " + ("<h1>" + name + " Component</h1>") + [];
    TemplateHasLine(t, 13, "      ", "<h1>" + name + " Component</h1>", []);
  }

  // ---------------------------------------------------------------------
  // Agreement between the three files

  /** The test imports the component from its sibling module `./<name>`. */
  lemma TestImportsComponent(name: string)
    ensures Contains(GenerateTestContent(name), "import " + name + " from './" + name + "';")
  {
    var t := TestTemplate(name);
    TemplateHasLine(t, 2, [], t[2], []);
  }

  /** The test looks up the heading text that the component renders. */
  lemma TestChecksHeading(name: string, useHooks: bool, useCSSModule: bool, props: string)
    ensures Contains(GenerateTestContent(name), "screen.getByText('" + name + " Component')")
    ensures Contains(GenerateComponentContent(name, useHooks, useCSSModule, props), "<h1>" + name + " Component</h1>")
  {
    TestQueriesHeading(name);
    ComponentAlwaysDeclares(name, useHooks, useCSSModule, props);
  }

  lemma TestQueriesHeading(name: string)
    ensures Contains(GenerateTestContent(name), "screen.getByText('" + name + " Component')")
  {
    var t := TestTemplate(name);
    assert "    expect(screen.getByText('" == "    expect(" + "screen.getByText('";
    assert t[7] == "    expect(" + ("screen.getByText('" + name + " Component')") + ").toBeInTheDocument();";
    TemplateHasLine(t, 7, "    expect(", "screen.getByText('" + name + " Component')", ").toBeInTheDocument();");
  }

  /** With a CSS module, the class the component's root element uses,
      `container`, is the class the stylesheet's first rule defines. */
  lemma StylesheetDefinesUsedClass(name: string, useHooks: bool, useCSSModule: bool, props: string)
    requires useCSSModule
    ensures Contains(GenerateComponentContent(name, useHooks, useCSSModule, props), "className={styles.container}")
    ensures IsPrefix(".container {\n", GenerateCSSContent())
  {
    var r := GenerateComponentContent(name, useHooks, useCSSModule, props);
    TemplateHasSlots(name, HooksImport(useHooks), CssImport(name, useCSSModule),
      PropBlock(PropTypes(props)), StateDeclaration(useHooks), ClassNameAttribute(useCSSModule));
    ClassAttributeNamesClass(useCSSModule);
    ContainsRight(r, " ", "className={styles.container}");
  }

  /** With a CSS module the root element's attribute names the `container`
      class of the imported styles. */
  lemma ClassAttributeNamesClass(useCSSModule: bool)
    requires useCSSModule
    ensures ClassNameAttribute(useCSSModule) == " " + "className={styles.container}"
  {
  }

  /** The import slot and the class-attribute slot of the template occur in
      its text. */
  lemma TemplateHasSlots(name: string, hooks: string, cssImport: string, propBlock: string,
                         state: string, classAttribute: string)
    ensures var r := Unlines(ComponentTemplate(name, hooks, cssImport, propBlock, state, classAttribute));
      Contains(r, cssImport) && Contains(r, classAttribute)
  {
    var t := ComponentTemplate(name, hooks, cssImport, propBlock, state, classAttribute);
    TemplateHasLine(t, 2, [], cssImport, []);
    TemplateHasLine(t, 12, "    <div", classAttribute, ">");
  }

  /** With a CSS module, the component imports the stylesheet from its
      sibling file `<name>.module.css`. */
  lemma ComponentImportsStylesheet(name: string, useHooks: bool, useCSSModule: bool, props: string)
    requires useCSSModule
    ensures Contains(GenerateComponentContent(name, useHooks, useCSSModule, props), "import styles from './" + name + ".module.css';")
  {
    TemplateHasSlots(name, HooksImport(useHooks), CssImport(name, useCSSModule),
      PropBlock(PropTypes(props)), StateDeclaration(useHooks), ClassNameAttribute(useCSSModule));
  }
}
