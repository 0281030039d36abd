/** The settings object, reduced to the entries the core reads; loading it from the environment is not modelled. */
module Config {

  datatype Settings = Settings(
    diagramsPath: string,  // stands for BASE_PATH of reports/diagram_generator.py:8, the absolute root of the per-manager chart directories
    pdfPath: string,       // directory the PDF documents are written to and swept from
    apiKey: string         // the shared secret of both front ends
  )
}
